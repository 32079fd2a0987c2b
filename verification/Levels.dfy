// The level manager as a state and its transitions: which files exist, what a merge takes and where it goes.
module Levels {
  import opened Entries

  datatype FileId = FileId(level: nat, index: nat)

  datatype MergeOperation = MergeOperation(sources: seq<FileId>, dst: FileId)

  /** File indices per level, the next level-0 index, and the number of entries flushed so far. */
  datatype State = State(levels: seq<seq<nat>>, nextIndex: nat, globalStart: nat)

  const INITIAL := State([[]], 0, 0)

  function Ids(levels: seq<seq<nat>>, l: nat): (ids: seq<FileId>)
    requires l < |levels|
    ensures |ids| == |levels[l]| && forall i :: 0 <= i < |ids| ==> ids[i] == FileId(l, levels[l][i])
  {
    seq(|levels[l]|, i requires 0 <= i < |levels[l]| => FileId(l, levels[l][i]))
  }

  /** The files of level `l` and above, highest level first. */
  function Order(levels: seq<seq<nat>>, l: nat): seq<FileId>
    decreases |levels| - l
  {
    if l >= |levels| then [] else Order(levels, l + 1) + Ids(levels, l)
  }

  /** The files below level `d`, highest level first. */
  function Lower(levels: seq<seq<nat>>, d: nat): seq<FileId>
    requires d <= |levels|
  {
    if d == 0 then [] else Ids(levels, d - 1) + Lower(levels, d - 1)
  }

  /** The files below level `d` the way a cascaded merge lists them: level 0 first. */
  function Listed(levels: seq<seq<nat>>, d: nat): seq<FileId>
    requires d <= |levels|
  {
    if d == 0 then [] else Listed(levels, d - 1) + Ids(levels, d - 1)
  }

  // ---- Merge planning.

  predicate ShouldMerge(levels: seq<seq<nat>>, maxCount: nat, l: nat, plusOne: bool) {
    l < |levels| && |levels[l]| + (if plusOne then 1 else 0) >= maxCount
  }

  /** The level a cascade starting at level 0 ends in. */
  function CascadeDepth(levels: seq<seq<nat>>, maxCount: nat, l: nat): (d: nat)
    requires l <= |levels|
    ensures l <= d <= |levels| && !ShouldMerge(levels, maxCount, d, true)
    ensures forall i :: l <= i < d ==> ShouldMerge(levels, maxCount, i, true)
    decreases |levels| - l
  {
    if ShouldMerge(levels, maxCount, l, true) then CascadeDepth(levels, maxCount, l + 1) else l
  }

  function Cascade(levels: seq<seq<nat>>, maxCount: nat): Option<MergeOperation>
    requires maxCount > 0
  {
    if !ShouldMerge(levels, maxCount, 0, false) then None else
      var d := CascadeDepth(levels, maxCount, 1);
      Some(MergeOperation(Listed(levels, d), FileId(d, levels[0][|levels[0]| - 1])))
  }

  function FileCount(levels: seq<seq<nat>>): nat {
    if levels == [] then 0 else |levels[0]| + FileCount(levels[1..])
  }

  /** Lowest level that has a file. */
  function LowestUsed(levels: seq<seq<nat>>, l: nat): (r: nat)
    requires l < |levels|
    ensures l <= r < |levels|
    decreases |levels| - l
  {
    if levels[l] != [] || l + 1 == |levels| then l else LowestUsed(levels, l + 1)
  }

  function FullMerge(levels: seq<seq<nat>>): Option<MergeOperation> {
    if FileCount(levels) < 2 || levels == [] then None else
      var low := LowestUsed(levels, 0);
      var top := |levels| - 1;
      var last := if levels[low] == [] then 0 else levels[low][|levels[low]| - 1];
      Some(MergeOperation(Order(levels, 0), FileId(top, if low == top then last + 1 else last)))
  }

  // ---- Transitions.

  /** All elements but those equal to `v`. */
  function Removed(xs: seq<nat>, v: nat): seq<nat> {
    if xs == [] then [] else (if xs[0] == v then [] else [xs[0]]) + Removed(xs[1..], v)
  }

  function Grown(levels: seq<seq<nat>>, l: nat): (r: seq<seq<nat>>)
    ensures l < |r| && levels <= r && forall i :: |levels| <= i < |r| ==> r[i] == []
    ensures |r| == if l < |levels| then |levels| else l + 1
  {
    if l < |levels| then levels else levels + seq(l + 1 - |levels|, i => [])
  }

  function RemovedAll(levels: seq<seq<nat>>, sources: seq<FileId>): (r: seq<seq<nat>>)
    ensures |r| == |levels|
    decreases |sources|
  {
    if sources == [] then levels else
      var id := sources[0];
      var next := if id.level < |levels| then levels[id.level := Removed(levels[id.level], id.index)] else levels;
      RemovedAll(next, sources[1..])
  }

  function Apply(s: State, op: MergeOperation): State {
    var kept := RemovedAll(Grown(s.levels, op.dst.level), op.sources);
    s.(levels := kept[op.dst.level := kept[op.dst.level] + [op.dst.index]], nextIndex := op.dst.index + 1)
  }

  /** A new level-0 file of `count` entries. */
  function Advance(s: State, count: nat): State
    requires s.levels != []
  {
    State(s.levels[0 := s.levels[0] + [s.nextIndex]], s.nextIndex + 1, s.globalStart + count)
  }

  // ---- Invariant.

  ghost predicate Increasing(ids: seq<FileId>) {
    forall i, j :: 0 <= i < j < |ids| ==> ids[i].index < ids[j].index
  }

  /** From the highest level down, and within each level, indices increase; the next index is above all of them; the top
      level is in use once there is a file. */
  ghost predicate Consistent(s: State) {
    && s.levels != []
    && var order := Order(s.levels, 0);
       && Increasing(order)
       && s.nextIndex == (if order == [] then 0 else order[|order| - 1].index + 1)
       && (if order == [] then |s.levels| == 1 else s.levels[|s.levels| - 1] != [])
  }

  lemma LevelsExist(s: State)
    requires Consistent(s)
    ensures s.levels != []
  {
  }

  lemma {:induction false} OrderSplit(levels: seq<seq<nat>>, d: nat)
    requires d <= |levels|
    ensures Order(levels, 0) == Order(levels, d) + Lower(levels, d)
  {
    if d > 0 {
      OrderSplit(levels, d - 1);
      assert Order(levels, d - 1) == Order(levels, d) + Ids(levels, d - 1);
    }
  }

  lemma {:induction false} OrderMembers(levels: seq<seq<nat>>, l: nat, id: FileId)
    requires l <= |levels|
    ensures id in Order(levels, l) <==> l <= id.level < |levels| && id.index in levels[id.level]
    decreases |levels| - l
  {
    if l < |levels| {
      OrderMembers(levels, l + 1, id);
      IdsMembers(levels, l, id);
    }
  }

  lemma IdsMembers(levels: seq<seq<nat>>, l: nat, id: FileId)
    requires l < |levels|
    ensures id in Ids(levels, l) <==> id.level == l && id.index in levels[l]
  {
    if id.level == l && id.index in levels[l] {
      var i :| 0 <= i < |levels[l]| && levels[l][i] == id.index;
      assert Ids(levels, l)[i] == id;
    }
  }

  lemma {:induction false} LowerListed(levels: seq<seq<nat>>, d: nat)
    requires d <= |levels|
    ensures multiset(Lower(levels, d)) == multiset(Listed(levels, d))
  {
    if d > 0 {
      LowerListed(levels, d - 1);
    }
  }

  lemma InEither<T>(a: seq<T>, b: seq<T>, x: T)
    ensures x in a + b <==> x in a || x in b
  {
  }

  lemma {:induction false} ListedMembers(levels: seq<seq<nat>>, d: nat, id: FileId)
    requires d <= |levels|
    ensures id in Listed(levels, d) <==> id.level < d && id.index in levels[id.level]
  {
    hide Ids;
    if d > 0 {
      ListedMembers(levels, d - 1, id);
      IdsMembers(levels, d - 1, id);
      InEither(Listed(levels, d - 1), Ids(levels, d - 1), id);
      assert Listed(levels, d) == Listed(levels, d - 1) + Ids(levels, d - 1);
    }
  }

  lemma LowerMembers(levels: seq<seq<nat>>, d: nat, id: FileId)
    requires d <= |levels|
    ensures id in Listed(levels, d) <==> id.level < d && id.index in levels[id.level]
    ensures id in Lower(levels, d) <==> id.level < d && id.index in levels[id.level]
  {
    hide Listed, Lower;
    ListedMembers(levels, d, id);
    LowerListed(levels, d);
    assert id in Listed(levels, d) <==> id in multiset(Listed(levels, d));
    assert id in Lower(levels, d) <==> id in multiset(Lower(levels, d));
  }

  /** Levels that agree from `d` on have the same files from `d` on. */
  lemma {:induction false} OrderAgrees(a: seq<seq<nat>>, b: seq<seq<nat>>, d: nat)
    requires |a| == |b| && d <= |a| && forall l :: d <= l < |a| ==> a[l] == b[l]
    ensures Order(a, d) == Order(b, d)
    decreases |a| - d
  {
    if d < |a| {
      OrderAgrees(a, b, d + 1);
      assert Ids(a, d) == Ids(b, d);
    }
  }

  lemma {:induction false} OrderGrown(levels: seq<seq<nat>>, l: nat, d: nat)
    requires d <= |levels|
    ensures Order(Grown(levels, l), d) == Order(levels, d)
    decreases |levels| - d
  {
    if d < |levels| {
      OrderGrown(levels, l, d + 1);
      assert Ids(Grown(levels, l), d) == Ids(levels, d);
    } else {
      OrderOfEmpty(Grown(levels, l), d);
    }
  }

  lemma {:induction false} OrderOfEmpty(levels: seq<seq<nat>>, d: nat)
    requires d <= |levels| && forall l :: d <= l < |levels| ==> levels[l] == []
    ensures Order(levels, d) == []
    decreases |levels| - d
  {
    if d < |levels| {
      OrderOfEmpty(levels, d + 1);
    }
  }

  lemma {:induction false} LowerOfEmpty(levels: seq<seq<nat>>, d: nat)
    requires d <= |levels| && forall l :: 0 <= l < d ==> levels[l] == []
    ensures Lower(levels, d) == []
  {
    if d > 0 {
      LowerOfEmpty(levels, d - 1);
    }
  }

  lemma {:induction false} RemovedMembers(xs: seq<nat>, v: nat)
    ensures forall x :: x in Removed(xs, v) <==> x in xs && x != v
    ensures v !in xs ==> Removed(xs, v) == xs
  {
    if xs != [] {
      RemovedMembers(xs[1..], v);
      assert xs == [xs[0]] + xs[1..];
    }
  }

  /** Removing files from a level leaves the indices that are not named; a level none is named in stays as it is. */
  lemma {:induction false} RemovedAllMembers(levels: seq<seq<nat>>, sources: seq<FileId>, l: nat)
    requires l < |levels|
    ensures forall x :: x in RemovedAll(levels, sources)[l] <==> x in levels[l] && FileId(l, x) !in sources
    ensures (forall id :: id in sources ==> id.level != l) ==> RemovedAll(levels, sources)[l] == levels[l]
    decreases |sources|
  {
    if sources != [] {
      var id := sources[0];
      var next := if id.level < |levels| then levels[id.level := Removed(levels[id.level], id.index)] else levels;
      RemovedAllMembers(next, sources[1..], l);
      if id.level < |levels| { RemovedMembers(levels[id.level], id.index); }
      assert sources == [id] + sources[1..];
    }
  }

  lemma NoMembers(xs: seq<nat>)
    ensures xs == [] || exists x :: x in xs
  {
    if xs != [] {
      assert xs[0] in xs;
    }
  }

  /** Taking out everything below level `d` empties those levels and touches no other. */
  lemma RemoveBelow(levels: seq<seq<nat>>, sources: seq<FileId>, d: nat)
    requires d <= |levels|
    requires forall id :: id in sources <==> id.level < d && id.index in levels[id.level]
    ensures forall l :: 0 <= l < |levels| ==> RemovedAll(levels, sources)[l] == if l < d then [] else levels[l]
  {
    forall l | 0 <= l < |levels| ensures RemovedAll(levels, sources)[l] == if l < d then [] else levels[l] {
      RemovedAllMembers(levels, sources, l);
      if l < d {
        NoMembers(RemovedAll(levels, sources)[l]);
      }
    }
  }

  /** What a merge of everything below level `d` into level `d` does to the file list: the tail becomes one file. */
  lemma ApplyBelow(s: State, op: MergeOperation, d: nat)
    requires op.dst.level == d && d <= |s.levels|
    requires forall id :: id in op.sources <==> id.level < d && id.index in s.levels[id.level]
    ensures Order(Apply(s, op).levels, 0) == Order(s.levels, d) + [op.dst]
    ensures |Apply(s, op).levels| == (if d < |s.levels| then |s.levels| else d + 1)
    ensures forall l :: 0 <= l < |Apply(s, op).levels| ==>
              Apply(s, op).levels[l] == if l < d then []
                  else if l == d then (if d < |s.levels| then s.levels[d] else []) + [op.dst.index] else s.levels[l]
  {
    var grown := Grown(s.levels, d);
    RemoveBelow(grown, op.sources, d);
    var kept := RemovedAll(grown, op.sources);
    var after := Apply(s, op).levels;
    assert after == kept[d := kept[d] + [op.dst.index]];
    OrderSplit(after, d);
    LowerOfEmpty(after, d);
    OrderAgrees(after, grown, d + 1);
    assert Ids(after, d) == Ids(grown, d) + [op.dst];
    OrderGrown(s.levels, d, d);
    assert Order(after, d) == Order(grown, d + 1) + Ids(after, d);
    assert Order(after, d) == Order(grown, d) + [op.dst];
  }

  // ---- The merges keep the invariant; their target is new.

  lemma IncreasingParts(a: seq<FileId>, b: seq<FileId>)
    ensures Increasing(a + b) <==> Increasing(a) && Increasing(b) && forall i, j :: 0 <= i < |a| && 0 <= j < |b| ==>
            a[i].index < b[j].index
  {
    if Increasing(a + b) {
      forall i, j | 0 <= i < j < |a| ensures a[i].index < a[j].index { assert (a + b)[i] == a[i]
          && (a + b)[j] == a[j]; }
      forall i, j | 0 <= i < j < |b| ensures b[i].index < b[j].index { assert (a + b)[|a| + i] == b[i]
          && (a + b)[|a| + j] == b[j]; }
      forall i, j | 0 <= i < |a| && 0 <= j < |b|
          ensures a[i].index < b[j].index { assert (a + b)[i] == a[i] && (a + b)[|a| + j] == b[j]; }
    }
  }

  /** Indices are unique, so an index already used on another level makes a new file id. */
  lemma FreshId(ids: seq<FileId>, i: nat, level: nat)
    requires Increasing(ids) && i < |ids| && ids[i].level != level
    ensures FileId(level, ids[i].index) !in ids
  {
    forall j | 0 <= j < |ids| ensures ids[j] != FileId(level, ids[i].index) {
      assert j < i ==> ids[j].index < ids[i].index;
      assert i < j ==> ids[i].index < ids[j].index;
    }
  }

  lemma AboveAllIds(ids: seq<FileId>, id: FileId)
    requires Increasing(ids) && (ids == [] || ids[|ids| - 1].index < id.index)
    ensures id !in ids
  {
    forall j | 0 <= j < |ids| ensures ids[j] != id {
      assert j < |ids| - 1 ==> ids[j].index < ids[|ids| - 1].index;
    }
  }

  lemma CascadeFacts(s: State, maxCount: nat)
    requires Consistent(s) && maxCount > 0 && Cascade(s.levels, maxCount).Some?
    ensures var op := Cascade(s.levels, maxCount).value;
            var d := op.dst.level;
            && 1 <= d <= |s.levels|
            && op.sources == Listed(s.levels, d)
            && Order(s.levels, 0) == Order(s.levels, d) + Lower(s.levels, d)
            && (forall id :: id in op.sources <==> id.level < d && id.index in s.levels[id.level])
            && op.dst !in Order(s.levels, 0)
            && op.dst.index + 1 == s.nextIndex
            && Increasing(Order(s.levels, d) + [op.dst])
            && Lower(s.levels, d) != []
  {
    var op := Cascade(s.levels, maxCount).value;
    var d, order := op.dst.level, Order(s.levels, 0);
    OrderSplit(s.levels, d);
    forall id ensures id in op.sources <==> id.level < d && id.index in s.levels[id.level] {
      LowerMembers(s.levels, d, id);
    }
    var ids := Ids(s.levels, 0);
    assert order == Order(s.levels, 1) + ids;
    assert order[|order| - 1] == ids[|ids| - 1];
    FreshId(order, |order| - 1, d);
    LowerMembers(s.levels, d, ids[|ids| - 1]);
    assert s.levels[0][|ids| - 1] in s.levels[0];
    IncreasingParts(Order(s.levels, d), Lower(s.levels, d));
    IncreasingParts(Order(s.levels, d), [op.dst]);
    assert order[|order| - 1] == Lower(s.levels, d)[|Lower(s.levels, d)| - 1];
  }

  /** A cascade takes a tail of the files in index order, and leaves a consistent state with a new file in their
      place. */
  lemma CascadeKeeps(s: State, maxCount: nat)
    requires Consistent(s) && maxCount > 0 && Cascade(s.levels, maxCount).Some?
    ensures var op := Cascade(s.levels, maxCount).value;
            && Consistent(Apply(s, op)) && Apply(s, op).nextIndex == s.nextIndex
                 && Apply(s, op).globalStart == s.globalStart
            && Order(Apply(s, op).levels, 0) == Order(s.levels, op.dst.level) + [op.dst]
  {
    hide Cascade, Listed, Lower, Apply, Increasing, Order;
    var op := Cascade(s.levels, maxCount).value;
    CascadeFacts(s, maxCount);
    ApplyBelow(s, op, op.dst.level);
    ApplyCounters(s, op);
  }

  lemma ApplyCounters(s: State, op: MergeOperation)
    ensures Apply(s, op).nextIndex == op.dst.index + 1 && Apply(s, op).globalStart == s.globalStart
  {
  }

  lemma {:induction false} LowestUsedIs(levels: seq<seq<nat>>, l: nat)
    requires l < |levels|
    ensures forall i :: l <= i < LowestUsed(levels, l) ==> levels[i] == []
    ensures Order(levels, l) != [] ==> levels[LowestUsed(levels, l)] != []
    ensures Order(levels, l) == Order(levels, LowestUsed(levels, l))
    decreases |levels| - l
  {
    if levels[l] != [] {
    } else if l + 1 == |levels| {
      OrderOfEmpty(levels, l);
    } else {
      LowestUsedIs(levels, l + 1);
      assert Ids(levels, l) == [];
    }
  }

  lemma {:induction false} FileCountIs(levels: seq<seq<nat>>, l: nat)
    requires l <= |levels|
    ensures FileCount(levels[l..]) == |Order(levels, l)|
    decreases |levels| - l
  {
    if l < |levels| {
      FileCountIs(levels, l + 1);
      assert levels[l..][1..] == levels[l + 1..];
    }
  }

  lemma FullMergeFacts(s: State)
    requires Consistent(s) && FullMerge(s.levels).Some?
    ensures var op := FullMerge(s.levels).value;
            && op.sources == Order(s.levels, 0) && |op.sources| >= 2
            && op.dst.level == |s.levels| - 1
            && op.dst !in Order(s.levels, 0)
            && s.nextIndex <= op.dst.index + 1 <= s.nextIndex + 1
  {
    var op := FullMerge(s.levels).value;
    var order, low, top := Order(s.levels, 0), LowestUsed(s.levels, 0), |s.levels| - 1;
    FileCountIs(s.levels, 0);
    assert s.levels[0..] == s.levels;
    LowestUsedIs(s.levels, 0);
    var ids := Ids(s.levels, low);
    assert order == Order(s.levels, low + 1) + ids;
    assert order[|order| - 1] == ids[|ids| - 1] == FileId(low, s.levels[low][|s.levels[low]| - 1]);
    if low == top {
      AboveAllIds(order, op.dst);
    } else {
      FreshId(order, |order| - 1, top);
    }
  }

  lemma FullMergeLevels(s: State, op: MergeOperation)
    requires s.levels != [] && op.sources == Order(s.levels, 0) && op.dst.level == |s.levels| - 1
    ensures |Apply(s, op).levels| == |s.levels|
    ensures forall l :: 0 <= l < |s.levels| ==> Apply(s, op).levels[l] == if l == |s.levels| - 1 then [op.dst.index]
            else []
  {
    hide Order, RemovedAll;
    var d := |s.levels|;
    forall id ensures id in op.sources <==> id.level < d && id.index in s.levels[id.level] {
      OrderMembers(s.levels, 0, id);
    }
    RemoveBelow(s.levels, op.sources, d);
    assert Grown(s.levels, op.dst.level) == s.levels;
    var kept := RemovedAll(s.levels, op.sources);
    assert Apply(s, op).levels == kept[d - 1 := kept[d - 1] + [op.dst.index]];
  }

  lemma SingleTop(levels: seq<seq<nat>>, index: nat)
    requires levels != [] && forall l :: 0 <= l < |levels| ==> levels[l] == if l == |levels| - 1 then [index] else []
    ensures Order(levels, 0) == [FileId(|levels| - 1, index)]
  {
    hide Order, Lower;
    var top := |levels| - 1;
    LowerOfEmpty(levels, top);
    OrderSplit(levels, top);
    OrderStep(levels, top);
    OrderStep(levels, top + 1);
    assert Ids(levels, top) == [FileId(top, index)];
  }

  lemma OrderStep(levels: seq<seq<nat>>, l: nat)
    ensures Order(levels, l) == if l >= |levels| then [] else Order(levels, l + 1) + Ids(levels, l)
  {
  }

  /** A full merge takes every file, and leaves one file on the top level. */
  lemma FullMergeKeeps(s: State)
    requires Consistent(s) && FullMerge(s.levels).Some?
    ensures var op := FullMerge(s.levels).value;
            && Consistent(Apply(s, op)) && Order(Apply(s, op).levels, 0) == [op.dst]
            && |Apply(s, op).levels| == |s.levels|
            && forall l :: 0 <= l < |s.levels| ==> Apply(s, op).levels[l] == if l == |s.levels| - 1 then [op.dst.index]
                 else []
  {
    hide FullMerge, Apply, Order;
    var op := FullMerge(s.levels).value;
    FullMergeFacts(s);
    FullMergeLevels(s, op);
    SingleTop(Apply(s, op).levels, op.dst.index);
    ApplyCounters(s, op);
  }

  /** A new level-0 file goes to the end of the order. */
  lemma AdvanceKeeps(s: State, count: nat)
    requires Consistent(s)
    ensures Consistent(Advance(s, count))
    ensures Order(Advance(s, count).levels, 0) == Order(s.levels, 0) + [FileId(0, s.nextIndex)]
    ensures FileId(0, s.nextIndex) !in Order(s.levels, 0)
  {
    var order, after, id := Order(s.levels, 0), Advance(s, count).levels, FileId(0, s.nextIndex);
    OrderAgrees(after, s.levels, 1);
    assert Ids(after, 0) == Ids(s.levels, 0) + [id];
    assert Order(after, 0) == order + [id];
    AboveAllIds(order, id);
    if |s.levels| > 1 {
      assert after[|after| - 1] == s.levels[|s.levels| - 1];
    }
  }

  // ---- The level bound.

  ghost predicate Bounded(levels: seq<seq<nat>>, maxCount: nat) {
    forall l :: 0 <= l < |levels| ==> |levels[l]| < maxCount
  }

  /** When a merge is due, how far it climbs and what it takes, by the number of files per level. */
  ghost predicate DueByCounts(levels: seq<seq<nat>>, maxCount: nat, due: Option<MergeOperation>) {
    && (due.Some? <==> levels != [] && |levels[0]| >= maxCount)
    && (due.Some? ==>
         && 1 <= due.value.dst.level <= |levels|
         && (forall l :: 1 <= l < due.value.dst.level ==> |levels[l]| + 1 >= maxCount)
         && (due.value.dst.level < |levels| ==> |levels[due.value.dst.level]| + 1 < maxCount)
         && (forall id :: id in due.value.sources <==> id.level < due.value.dst.level && id.index in levels[id.level])
         && levels[0] != [] && due.value.dst.index == levels[0][|levels[0]| - 1])
  }

  /** A cascade is due exactly when level 0 has reached the limit; it passes the levels that one more file would fill
      and ends at the first that has room. */
  lemma CascadeCounts(levels: seq<seq<nat>>, maxCount: nat)
    requires maxCount > 0
    ensures DueByCounts(levels, maxCount, Cascade(levels, maxCount))
  {
    hide Listed;
    if Cascade(levels, maxCount).Some? {
      var op := Cascade(levels, maxCount).value;
      var d := op.dst.level;
      forall l | 1 <= l < d ensures |levels[l]| + 1 >= maxCount {
        assert ShouldMerge(levels, maxCount, l, true);
      }
      forall id ensures id in op.sources <==> id.level < d && id.index in levels[id.level] {
        LowerMembers(levels, d, id);
      }
    }
  }

  /** A cascade by any limit up to `bound` leaves every level below `bound`, if the levels above level 0 already are. */
  lemma CascadeKeepsBound(s: State, maxCount: nat, bound: nat)
    requires 1 <= maxCount <= bound && bound >= 2 && Consistent(s)
    requires forall l :: 1 <= l < |s.levels| ==> |s.levels[l]| < bound
    ensures match Cascade(s.levels, maxCount)
            case None => Bounded(s.levels, bound)
            case Some(op) => Bounded(Apply(s, op).levels, bound)
  {
    hide Consistent, Order, Listed, Lower, Increasing, Apply, Cascade, CascadeDepth;
    LevelsExist(s);
    CascadeCounts(s.levels, maxCount);
    if Cascade(s.levels, maxCount).Some? {
      CascadeFacts(s, maxCount);
      var op := Cascade(s.levels, maxCount).value;
      ApplyBelow(s, op, op.dst.level);
    }
  }

  lemma AdvanceBound(s: State, count: nat, bound: nat)
    requires s.levels != [] && Bounded(s.levels, bound)
    ensures var levels := Advance(s, count).levels; forall l :: 1 <= l < |levels| ==> |levels[l]| < bound
  {
  }

  /** A flush followed by a cascade by any limit up to `bound` keeps every level below `bound`. */
  lemma FlushKeepsBound(s: State, count: nat, maxCount: nat, bound: nat)
    requires 1 <= maxCount <= bound && bound >= 2 && Consistent(s) && Bounded(s.levels, bound)
    ensures var t := Advance(s, count);
            match Cascade(t.levels, maxCount)
            case None => Bounded(t.levels, bound)
            case Some(op) => Bounded(Apply(t, op).levels, bound)
  {
    hide Consistent, Bounded, Cascade, Apply;
    LevelsExist(s);
    AdvanceKeeps(s, count);
    AdvanceBound(s, count, bound);
    CascadeKeepsBound(Advance(s, count), maxCount, bound);
  }

  /** A compaction leaves at most one file per level. */
  lemma CompactKeepsBound(s: State, maxCount: nat)
    requires maxCount >= 2 && Consistent(s)
    ensures match FullMerge(s.levels)
            case None => Bounded(s.levels, maxCount)
            case Some(op) => Bounded(Apply(s, op).levels, maxCount)
  {
    match FullMerge(s.levels) {
      case None =>
        FileCountIs(s.levels, 0);
        assert s.levels[0..] == s.levels;
        forall l | 0 <= l < |s.levels| ensures |s.levels[l]| < maxCount {
          LevelWithin(s.levels, 0, l);
        }
      case Some(op) => FullMergeKeeps(s);
    }
  }

  lemma {:induction false} LevelWithin(levels: seq<seq<nat>>, d: nat, l: nat)
    requires d <= l < |levels|
    ensures |levels[l]| <= |Order(levels, d)|
    decreases l - d
  {
    if d < l {
      LevelWithin(levels, d + 1, l);
    }
  }

  /** In each level indices increase, and every index of a lower level is above every index of a higher one. */
  lemma LevelsOrdered(s: State, l: nat, m: nat, i: nat, j: nat)
    requires Consistent(s) && l <= m < |s.levels| && i < |s.levels[l]| && j < |s.levels[m]|
    ensures l < m ==> s.levels[m][j] < s.levels[l][i]
    ensures l == m && i < j ==> s.levels[l][i] < s.levels[l][j]
    ensures s.levels[l][i] < s.nextIndex
  {
    var order := Order(s.levels, 0);
    var pl, pm := PlaceOf(s.levels, 0, l, i), PlaceOf(s.levels, 0, m, j);
    if l < m {
      PlacesOrdered(s.levels, 0, l, m, i, j);
    }
    if l == m && i < j {
      PlacesInLevel(s.levels, 0, l, i, j);
    }
    PlaceBound(s.levels, 0, l, i);
    PlaceBound(s.levels, 0, m, j);
    assert order[pl].index <= order[|order| - 1].index;
  }

  /** Position of file `i` of level `l` in the order from level `d` on. */
  function PlaceOf(levels: seq<seq<nat>>, d: nat, l: nat, i: nat): nat
    requires d <= l < |levels| && i < |levels[l]|
    decreases l - d
  {
    if d == l then |Order(levels, d + 1)| + i else PlaceOf(levels, d + 1, l, i)
  }

  lemma {:induction false} PlaceBound(levels: seq<seq<nat>>, d: nat, l: nat, i: nat)
    requires d <= l < |levels| && i < |levels[l]|
    ensures PlaceOf(levels, d, l, i) < |Order(levels, d)|
    ensures Order(levels, d)[PlaceOf(levels, d, l, i)] == FileId(l, levels[l][i])
    decreases l - d
  {
    if d < l {
      PlaceBound(levels, d + 1, l, i);
    }
  }

  lemma {:induction false} PlacesInLevel(levels: seq<seq<nat>>, d: nat, l: nat, i: nat, j: nat)
    requires d <= l < |levels| && i < j < |levels[l]|
    ensures PlaceOf(levels, d, l, i) < PlaceOf(levels, d, l, j)
    decreases l - d
  {
    if d < l {
      PlacesInLevel(levels, d + 1, l, i, j);
    }
  }

  lemma {:induction false} PlacesOrdered(levels: seq<seq<nat>>, d: nat, l: nat, m: nat, i: nat, j: nat)
    requires d <= l < m < |levels| && i < |levels[l]| && j < |levels[m]|
    ensures PlaceOf(levels, d, m, j) < PlaceOf(levels, d, l, i)
    decreases l - d
  {
    if d == l {
      PlaceBound(levels, d + 1, m, j);
    } else {
      PlacesOrdered(levels, d + 1, l, m, i, j);
    }
  }
}
