// The reader of one finished file: point lookup, position lookup, seeks and pruned traversal on raw offsets.
module Reading {
  import opened Bytes
  import opened Entries
  import opened Grouping
  import opened Structures
  import opened Packing
  import opened PackedShape
  import opened PbtIteration
  import opened StoredFile
  import opened TreeSearch

  /** `at` is the last entry with the key; if there is none, the first entry above it. */
  ghost predicate IsLastPlace(es: seq<Entry>, key: Bytes, at: nat) {
    if exists i :: 0 <= i < |es| && es[i].key == key
    then at < |es| && es[at].key == key && IsUpperBound(es, key, at + 1)
    else IsLowerBound(es, key, at) && IsUpperBound(es, key, at)
  }

  ghost predicate NoneAbove(es: seq<Entry>, key: Bytes, p: nat, at: nat) {
    forall k :: p < k <= at && k < |es| ==> AtMost(es[k].key, key)
  }

  lemma NoneAboveStart(es: seq<Entry>, key: Bytes, p: nat)
    ensures NoneAbove(es, key, p, p)
  {
  }

  lemma NoneAboveStep(es: seq<Entry>, key: Bytes, p: nat, at: nat)
    requires NoneAbove(es, key, p, at) && at + 1 < |es|
    ensures AtMost(es[at + 1].key, key) ==> NoneAbove(es, key, p, at + 1)
  {
  }

  /** Where the walk of `seek_last` stops, it stands on the last equal entry, or never moved off the first greater
      one. */
  lemma LastPlace(es: seq<Entry>, key: Bytes, p: nat, at: nat)
    requires Sorted(es) && IsLowerBound(es, key, p) && p <= at <= |es| && (at == |es| ==> p == |es|)
    requires NoneAbove(es, key, p, at)
    requires at + 1 < |es| ==> Less(key, es[at + 1].key)
    ensures IsLastPlace(es, key, at)
  {
    LessIrreflexive(key);
    forall i | 0 <= i < p ensures AtMost(es[i].key, key) && es[i].key != key {
      LessAtMost(es[i].key, key);
    }
    forall i | at + 1 <= i < |es| ensures Less(key, es[i].key) {
      if i > at + 1 {
        LessAtMost(key, es[at + 1].key);
        Chain(key, es[at + 1].key, es[i].key);
      }
    }
    if at < |es| {
      LessTotal(es[at].key, key);
      if p < at { Chain(es[p].key, es[at].key, key); }
      LessTotal(es[p].key, key);
    }
  }

  /** Where the walk of `seek_last` ends when it starts at `at`: before the first entry, not looked at yet, above the
      key. */
  function WalkEnd(es: seq<Entry>, key: Bytes, at: nat): (e: nat)
    requires at < |es|
    ensures at <= e < |es|
    decreases |es| - at
  {
    if at + 1 == |es| || Less(key, es[at + 1].key) then at else WalkEnd(es, key, at + 1)
  }

  lemma WalkStep(es: seq<Entry>, key: Bytes, at: nat)
    requires at < |es|
    ensures WalkEnd(es, key, at) == if at + 1 == |es| || Less(key, es[at + 1].key) then at else WalkEnd(es, key, at + 1)
  {
    hide Less;
  }

  /** On sorted entries, from the lower bound, that is the last place of the key. */
  lemma {:induction false} WalkEndLast(es: seq<Entry>, key: Bytes, p: nat, at: nat)
    requires Sorted(es) && IsLowerBound(es, key, p) && p <= at < |es| && NoneAbove(es, key, p, at)
    ensures IsLastPlace(es, key, WalkEnd(es, key, at))
    decreases |es| - at
  {
    hide Sorted, Less, IsUpperBound, IsLowerBound, IsLastPlace, NoneAbove;
    if at + 1 == |es| || Less(key, es[at + 1].key) {
      LastPlace(es, key, p, at);
    } else {
      NoneAboveStep(es, key, p, at);
      WalkEndLast(es, key, p, at + 1);
    }
  }

  /** Where `seek_last` and `seek_next` stand, on entries in any order. */
  ghost function LastSeekPlace(es: seq<Entry>, cfg: WriterConfig, key: Bytes): nat
    requires cfg.Allowed()
  {
    var p := SeekPlace(es, cfg, key);
    if p < |es| then WalkEnd(es, key, p) else p
  }

  ghost function NextSeekPlace(es: seq<Entry>, cfg: WriterConfig, key: Bytes): nat
    requires cfg.Allowed()
  {
    var at := LastSeekPlace(es, cfg, key);
    if at < |es| && es[at].key == key then at + 1 else at
  }

  lemma UpperBoundRange(es: seq<Entry>, key: Bytes)
    ensures forall u: nat :: IsUpperBound(es, key, u) ==> u <= |es|
    ensures forall u: nat :: IsUpperBound(es, key, u) && u < |es| ==> es[u].key != key
  {
    LessIrreflexive(key);
  }

  /** The entry after the last equal one, or else the first greater one, is the upper bound. */
  lemma LastThenNext(es: seq<Entry>, key: Bytes, at: nat)
    requires IsLastPlace(es, key, at)
    ensures at <= |es| && IsUpperBound(es, key, if at < |es| && es[at].key == key then at + 1 else at)
  {
    UpperBoundRange(es, key);
  }

  lemma SeekPlacesSorted(es: seq<Entry>, cfg: WriterConfig, key: Bytes)
    requires cfg.Allowed() && Sorted(es)
    ensures IsLastPlace(es, key, LastSeekPlace(es, cfg, key)) && IsUpperBound(es, key, NextSeekPlace(es, cfg, key))
  {
    hide Sorted, Less, IsUpperBound, IsLowerBound, IsLastPlace, NoneAbove, SeekPlace, WalkEnd;
    SeekPlaceFacts(es, cfg, key);
    var p := SeekPlace(es, cfg, key);
    NoneAboveStart(es, key, p);
    if p < |es| {
      WalkEndLast(es, key, p, p);
    } else {
      LastPlace(es, key, p, p);
    }
    LastThenNext(es, key, LastSeekPlace(es, cfg, key));
  }

  lemma LastSorted(es: seq<Entry>, cfg: WriterConfig, key: Bytes)
    requires cfg.Allowed()
    ensures Sorted(es) ==> IsLastPlace(es, key, LastSeekPlace(es, cfg, key)) && IsUpperBound(es, key,
            NextSeekPlace(es, cfg, key))
  {
    hide Sorted, IsLastPlace, IsUpperBound, LastSeekPlace, NextSeekPlace;
    if Sorted(es) {
      SeekPlacesSorted(es, cfg, key);
    }
  }

  /** An iterator at the beginning stands on the first entry of leaf 0. */
  lemma FirstPlace(image: Bytes, es: seq<Entry>, cfg: WriterConfig)
    requires cfg.Allowed()
    ensures LeafOffset(es, cfg, LeafOf(cfg, 0)) == 0 && IndexInLeaf(cfg, 0) == 0
  {
    QuotientIs(0, cfg.maxNodeChildren, 0);
  }

  datatype Reader = Reader(footer: Footer, storage: Bytes)
  {
    /** This reader is open on the finished file of `es`. */
    ghost predicate Holds(es: seq<Entry>, cfg: WriterConfig, globalStart: nat) {
      IsFile(storage, es, cfg, globalStart) && footer == FooterOf(es, cfg, globalStart)
    }

    /** Number of entries, from the global range in the footer. */
    function Count(): (n: int) {
      footer.globalEnd - footer.globalStart
    }

    function GetGlobalStart(): nat {
      footer.globalStart
    }

    /** The right keys stored in a node. */
    ghost function StoredRights(node: nat): (rights: seq<Bytes>)
      ensures |rights| == InternalCount(storage, node)
      ensures forall k :: 0 <= k < |rights| ==> rights[k] == RightKey(storage, node, k)
    {
      seq(InternalCount(storage, node), k requires k >= 0 => RightKey(storage, node, k))
    }

    /** Binary search over the right keys of a node. */
    method SearchChildren(node: nat, key: Bytes) returns (lo: nat)
      requires 0 < InternalCount(storage, node)
      ensures lo < InternalCount(storage, node)
              && lo == Pick(StoredRights(node), key, 0, InternalCount(storage, node) - 1)
      ensures lo == 0 || Less(RightKey(storage, node, lo - 1), key)
      ensures lo == InternalCount(storage, node) - 1 || AtMost(key, RightKey(storage, node, lo))
    {
      hide RightKey, InternalCount, Less, StoredRights, Pick;
      ghost var rights := StoredRights(node);
      lo := 0;
      var hi := InternalCount(storage, node) - 1;
      PickNeighbours(rights, key, lo, hi);
      while lo < hi
        invariant 0 <= lo <= hi < |rights|
        invariant Pick(rights, key, lo, hi) == Pick(rights, key, 0, |rights| - 1)
      {
        PickStep(rights, key, lo, hi);
        var mid := lo + (hi - lo) / 2;
        if AtMost(key, RightKey(storage, node, mid)) {
          hi := mid;
        } else {
          lo := mid + 1;
        }
      }
      PickOne(rights, key, lo);
    }

    /** The right keys stored in internal node (l, j) are the keys its children end with. */
    lemma RightsStored(es: seq<Entry>, cfg: WriterConfig, globalStart: nat, l: nat, j: nat)
      requires Holds(es, cfg, globalStart)
      requires 1 <= l < |Levels(es, cfg)| && j < |Levels(es, cfg)[l]|
      ensures From(cfg, l, j) < To(cfg, |es|, l, j) <= |es|
      ensures StoredRights(Levels(es, cfg)[l][j].offset) == RightsOf(es, cfg, l, j)
      ensures LeftKey(storage, Levels(es, cfg)[l][j].offset) == KeyAt(es, From(cfg, l, j))
    {
      hide PbtImage, Levels, FooterOf, From, To, Fits, InternalCount, LeftKey, RightKey, ChildOffset, ChildEntryStart;
      hide Child;
      hide ReducedValue, TreeStored, LeavesReadable, ChildrenOf, DivCeil;
      var levels: seq<seq<Handle>> := Levels(es, cfg);
      var node := levels[l][j].offset;
      FileStores(storage, es, cfg, globalStart);
      NodeSpan(storage, es, cfg, levels, l, j);
      NodeReads(storage, es, cfg, globalStart, l, j, 0);
      CountStored(es, cfg, globalStart, l, j);
      forall k | 0 <= k < InternalCount(storage, node)
          ensures RightKey(storage, node, k) == RightsOf(es, cfg, l, j)[k] {
        NodeReads(storage, es, cfg, globalStart, l, j, k);
        ChildBelow(cfg, j, k, InternalCount(storage, node));
        NodeSpan(storage, es, cfg, levels, l - 1, Child(cfg, j, k));
      }
    }

    lemma CountStored(es: seq<Entry>, cfg: WriterConfig, globalStart: nat, l: nat, j: nat)
      requires Holds(es, cfg, globalStart)
      requires 1 <= l < |Levels(es, cfg)| && j < |Levels(es, cfg)[l]|
      ensures InternalCount(storage, Levels(es, cfg)[l][j].offset) == ChildrenOf(cfg, |es|, l, j)
    {
      hide PbtImage, Levels, FooterOf, From, To, Fits, InternalCount, LeftKey, RightKey, ChildOffset, ChildEntryStart;
      hide ReducedValue, TreeStored, LeavesReadable, DivCeil, Span;
      var count := InternalCount(storage, Levels(es, cfg)[l][j].offset);
      NodeReads(storage, es, cfg, globalStart, l, j, 0);
      NodeReads(storage, es, cfg, globalStart, l, j, count - 1);
      FileStores(storage, es, cfg, globalStart);
      NodeSpan(storage, es, cfg, Levels(es, cfg), l, j);
      var s, c := Span(cfg, l - 1), Child(cfg, j, 0);
      FromTo(cfg, |es|, l - 1, c);
      FromTo(cfg, |es|, l - 1, Child(cfg, j, count - 1));
      assert Child(cfg, j, count - 1) == c + (count - 1);
      Distribute(c, count - 1, s);
      Distribute(c + (count - 1), 1, s);
      Distribute(count - 1, 1, s);
      DivCeilIs(To(cfg, |es|, l, j) - From(cfg, l, j), s, count);
    }

    lemma ChildBelow(cfg: WriterConfig, j: nat, k: nat, count: nat)
      requires k < count
      ensures Child(cfg, j, k) < Child(cfg, j, count)
    {
    }

    /** At the root nothing is excluded yet. */
    lemma AtRoot(key: Bytes, es: seq<Entry>, cfg: WriterConfig, globalStart: nat)
      requires Holds(es, cfg, globalStart) && es != []
      ensures footer.treeHeight == |Levels(es, cfg)| && |Levels(es, cfg)[footer.treeHeight - 1]| == 1
      ensures footer.rootOffset == Levels(es, cfg)[footer.treeHeight - 1][0].offset
      ensures From(cfg, footer.treeHeight - 1, 0) == 0 && To(cfg, |es|, footer.treeHeight - 1, 0) == |es|
    {
      hide PbtImage, Levels, FooterOf, TreeStored, LeavesReadable, DivCeil;
      var levels: seq<seq<Handle>> := Levels(es, cfg);
      RootHandle(storage, es, cfg, globalStart);
      FileStores(storage, es, cfg, globalStart);
      LevelCount(storage, es, cfg, levels, |levels| - 1);
      DivCeilBounds(|es|, Span(cfg, |levels| - 1));
    }

    /** What the field readers find in leaf (0, j). */
    lemma LeafFacts(es: seq<Entry>, cfg: WriterConfig, globalStart: nat, j: nat)
      requires Holds(es, cfg, globalStart) && j < |Levels(es, cfg)[0]|
      ensures var leaf, from, to := Levels(es, cfg)[0][j].offset, From(cfg, 0, j), To(cfg, |es|, 0, j);
              && from < to <= |es| && LeafCount(storage, leaf) == to - from
              && leaf == LeafOffset(es, cfg, j)
              && forall i :: 0 <= i < to - from ==>
                   && LeafKey(storage, leaf, i) == es[from + i].key && LeafValue(storage, leaf, i) == es[from + i].value
    {
      hide PbtImage, Levels, FooterOf, From, To, Fits, LeafCount, LeafKey, LeafValue, LeafOffset, TreeStored;
      hide LeavesReadable;
      hide LeafEntries, LeafCountOf, At, LeafImage, LeafSize;
      FileStores(storage, es, cfg, globalStart);
      LeafPlace(storage, es, cfg, globalStart, j);
      LeafChain(storage, es, cfg, j);
    }

    /** Scans leaf (0, j). */
    method ScanLeaf(leaf: nat, key: Bytes, mode: FindMode,
                    ghost es: seq<Entry>, ghost cfg: WriterConfig, ghost globalStart: nat, ghost j: nat)
      returns (found: bool, entryIndex: nat)
      requires Holds(es, cfg, globalStart)
      requires j < |Levels(es, cfg)[0]| && leaf == Levels(es, cfg)[0][j].offset
      ensures var from, to := From(cfg, 0, j), To(cfg, |es|, 0, j);
              && from < to <= |es| && (found ==> from + entryIndex < to)
              && Scan(es, key, mode, from, to) == if found then Some(from + entryIndex) else None
    {
      hide PbtImage, Levels, FooterOf, From, To, Less, Fits, LeafCount, LeafKey, LeafOffset;
      LeafFacts(es, cfg, globalStart, j);
      ghost var from, to := From(cfg, 0, j), To(cfg, |es|, 0, j);
      var count := LeafCount(storage, leaf);
      var i := 0;
      while i < count
        invariant 0 <= i <= count == to - from
        invariant Scan(es, key, mode, from, to) == Scan(es, key, mode, from + i, to)
      {
        var current := LeafKey(storage, leaf, i);
        if (mode.Exact? && current == key) || (mode.GreaterOrEqual? && AtMost(key, current)) {
          return true, i;
        }
        i := i + 1;
      }
      found, entryIndex := false, 0;
    }

    /** Where child k of node (l, j) lies and starts, read from the bytes of the node. */
    lemma ReadDown(es: seq<Entry>, cfg: WriterConfig, globalStart: nat, l: nat, j: nat, k: nat)
      requires Holds(es, cfg, globalStart)
      requires 1 <= l < |Levels(es, cfg)| && j < |Levels(es, cfg)[l]|
      requires k < InternalCount(storage, Levels(es, cfg)[l][j].offset)
      ensures var node := Levels(es, cfg)[l][j].offset;
              && Child(cfg, j, k) < |Levels(es, cfg)[l - 1]|
              && ChildOffset(storage, node, k) == Levels(es, cfg)[l - 1][Child(cfg, j, k)].offset
              && ChildEntryStart(storage, node, k) == From(cfg, l - 1, Child(cfg, j, k))
    {
      hide PbtImage, Levels, FooterOf, From, To, Fits, InternalCount, LeftKey, RightKey, ChildOffset, ChildEntryStart;
      hide Child, ReducedValue;
      NodeReads(storage, es, cfg, globalStart, l, j, k);
      ChildBelow(cfg, j, k, InternalCount(storage, Levels(es, cfg)[l][j].offset));
    }

    /** One step of the search, read from the bytes of node (l, j): where it goes, and when it stops. */
    lemma StepDown(es: seq<Entry>, cfg: WriterConfig, globalStart: nat, l: nat, j: nat, key: Bytes, mode: FindMode)
      requires Holds(es, cfg, globalStart)
      requires 1 <= l < |Levels(es, cfg)| && j < |Levels(es, cfg)[l]|
      ensures var node := Levels(es, cfg)[l][j].offset;
              && 0 < InternalCount(storage, node)
              && var k := Pick(StoredRights(node), key, 0, InternalCount(storage, node) - 1);
                 SearchNode(es, cfg, l, j, key, mode) ==
                      if mode.Exact? && (Less(key, LeftKey(storage, node)) || Less(RightKey(storage, node, k), key))
                          then None
                      else SearchNode(es, cfg, l - 1, Child(cfg, j, k), key, mode)
    {
      hide PbtImage, Levels, FooterOf, From, To, Less, Fits, SearchNode, RightsOf, Pick, KeyAt, ReducedValue;
      hide ChildrenOf;
      hide InternalCount, LeftKey, RightKey, Child, StoredRights, DivCeil, Span;
      RightsStored(es, cfg, globalStart, l, j);
      NodeStep(es, cfg, l, j, key, mode);
    }

    /** Point and range search from the root, on entries in any order; the last component is what the source stores
        through `entry_start`. */
    method Find(key: Bytes, mode: FindMode, ghost es: seq<Entry>, ghost cfg: WriterConfig, ghost globalStart: nat)
      returns (found: bool, leaf: nat, entryIndex: nat, entryStart: nat)
      requires Holds(es, cfg, globalStart) && es != []
      ensures Search(es, cfg, key, mode) == if found then Some(entryStart) else None
      ensures found ==>
                && entryStart < |es|
                && leaf == LeafOffset(es, cfg, LeafOf(cfg, entryStart)) && entryIndex == IndexInLeaf(cfg, entryStart)
    {
      hide PbtImage, Levels, FooterOf, LeafOffset, LeafOf, IndexInLeaf, From, To, Less, Fits, SearchNode, RightsOf;
      hide Pick, KeyAt;
      hide InternalCount, LeftKey, RightKey, ChildOffset, ChildEntryStart, LeafCount, LeafKey, Child, Scan, Holds;
      hide StoredRights, ReducedValue;
      HeightZero(es, cfg, globalStart);
      ghost var levels: seq<seq<Handle>> := Levels(es, cfg);
      ghost var j: nat := 0;
      AtRoot(key, es, cfg, globalStart);
      var offset := footer.rootOffset;
      var height := footer.treeHeight;
      entryStart := 0;
      while height >= 2
        invariant 1 <= height <= |levels| && j < |levels[height - 1]|
        invariant offset == levels[height - 1][j].offset && entryStart == From(cfg, height - 1, j)
        invariant Search(es, cfg, key, mode) == SearchNode(es, cfg, height - 1, j, key, mode)
      {
        StepDown(es, cfg, globalStart, height - 1, j, key, mode);
        if mode.Exact? {
          if Less(key, LeftKey(storage, offset)) {
            return false, 0, 0, 0;
          }
        }
        var lo := SearchChildren(offset, key);
        ReadDown(es, cfg, globalStart, height - 1, j, lo);
        if mode.Exact? {
          if Less(RightKey(storage, offset, lo), key) {
            return false, 0, 0, 0;
          }
        }
        entryStart := ChildEntryStart(storage, offset, lo);
        offset := ChildOffset(storage, offset, lo);
        j := Child(cfg, j, lo);
        height := height - 1;
      }
      found, entryIndex := ScanLeaf(offset, key, mode, es, cfg, globalStart, j);
      LeafStep(es, cfg, j, key, mode);
      leaf := offset;
      if found {
        LeafFacts(es, cfg, globalStart, j);
        PlaceOf(es, cfg, j, entryIndex);
        entryStart := entryStart + entryIndex;
      }
    }

    /** The value the search ends at; on sorted entries that is the first one with the key (`LookupSorted`). */
    method Get(key: Bytes, ghost es: seq<Entry>, ghost cfg: WriterConfig, ghost globalStart: nat)
            returns (value: Option<Bytes>)
      requires Holds(es, cfg, globalStart)
      ensures cfg.Allowed() && value == Lookup(es, cfg, key)
    {
      hide PbtImage, Levels, FooterOf, LeafOffset, LeafOf, IndexInLeaf, Less, LeafCount, LeafKey, LeafValue;
      HeightZero(es, cfg, globalStart);
      if footer.treeHeight == 0 {
        return None;
      }
      var found, leaf, entryIndex, entryStart := Find(key, Exact, es, cfg, globalStart);
      if !found {
        return None;
      }
      EntryAt(es, cfg, globalStart, entryStart);
      value := Some(LeafValue(storage, leaf, entryIndex));
    }

    lemma HeightZero(es: seq<Entry>, cfg: WriterConfig, globalStart: nat)
      requires Holds(es, cfg, globalStart)
      ensures (footer.treeHeight == 0 <==> es == []) && Count() == |es| && footer.globalStart == globalStart
      ensures cfg.Allowed() && LeavesReadable(storage, es, cfg)
    {
      hide PbtImage, Levels, TreeStored, LeavesReadable;
      FileStores(storage, es, cfg, globalStart);
    }

    /** The leaf and index of entry `pos` hold that entry. */
    lemma EntryAt(es: seq<Entry>, cfg: WriterConfig, globalStart: nat, pos: nat)
      requires Holds(es, cfg, globalStart) && pos < |es|
      ensures var leaf, i := LeafOffset(es, cfg, LeafOf(cfg, pos)), IndexInLeaf(cfg, pos);
              LeafKey(storage, leaf, i) == es[pos].key && LeafValue(storage, leaf, i) == es[pos].value
    {
      hide PbtImage, Levels, FooterOf, LeafOffset, LeafOf, IndexInLeaf, LeafCount, LeafKey, LeafValue, LeafEntries;
      hide LeafCountOf;
      hide LeavesReadable, TreeStored, LeafSize, At, LeafImage;
      FileStores(storage, es, cfg, globalStart);
      Locate(es, cfg, pos);
      LeafChain(storage, es, cfg, LeafOf(cfg, pos));
    }

    /** Walks down by the stored entry starts: the last child that does not start after `index`. */
    method FindIndex(index: nat, ghost es: seq<Entry>, ghost cfg: WriterConfig, ghost globalStart: nat)
      returns (found: bool, leaf: nat, entryIndex: nat)
      requires Holds(es, cfg, globalStart)
      ensures found <==> index < |es|
      ensures found ==> leaf == LeafOffset(es, cfg, LeafOf(cfg, index)) && entryIndex == IndexInLeaf(cfg, index)
    {
      hide PbtImage, Levels, FooterOf, LeafOffset, LeafOf, IndexInLeaf, From, To, Fits, Child, LeavesReadable;
      hide InternalCount, ChildOffset, ChildEntryStart, LeafCount, LeafKey, LeafValue, LeftKey, RightKey;
      HeightZero(es, cfg, globalStart);
      if index >= Count() {
        return false, 0, 0;
      }
      ghost var levels: seq<seq<Handle>> := Levels(es, cfg);
      ghost var j: nat := 0;
      AtRoot([], es, cfg, globalStart);
      var offset := footer.rootOffset;
      var height := footer.treeHeight;
      var leafEntryStart := 0;
      while height >= 2
        invariant 1 <= height <= |levels| && j < |levels[height - 1]|
        invariant offset == levels[height - 1][j].offset && leafEntryStart == From(cfg, height - 1, j)
        invariant From(cfg, height - 1, j) <= index < To(cfg, |es|, height - 1, j)
      {
        ghost var k: nat;
        offset, leafEntryStart, k := PickChild(offset, index, leafEntryStart, es, cfg, globalStart, height - 1, j);
        j := Child(cfg, j, k);
        height := height - 1;
      }
      LeafFacts(es, cfg, globalStart, j);
      PlaceOf(es, cfg, j, index - leafEntryStart);
      found, leaf, entryIndex := true, offset, index - leafEntryStart;
    }

    // The scan over the children of one node in `find_index`.
    method PickChild(node: nat, index: nat, start: nat,
                     ghost es: seq<Entry>, ghost cfg: WriterConfig, ghost globalStart: nat, ghost l: nat, ghost j: nat)
      returns (offset: nat, entryStart: nat, ghost k: nat)
      requires Holds(es, cfg, globalStart)
      requires 1 <= l < |Levels(es, cfg)| && j < |Levels(es, cfg)[l]| && node == Levels(es, cfg)[l][j].offset
      requires start == From(cfg, l, j) <= index < To(cfg, |es|, l, j)
      ensures Child(cfg, j, k) < |Levels(es, cfg)[l - 1]| && offset == Levels(es, cfg)[l - 1][Child(cfg, j, k)].offset
      ensures entryStart == From(cfg, l - 1, Child(cfg, j, k)) <= index < To(cfg, |es|, l - 1, Child(cfg, j, k))
    {
      hide PbtImage, Levels, FooterOf, From, To, Fits, Child, InternalCount, ChildOffset, ChildEntryStart, LeftKey;
      hide RightKey;
      hide ReducedValue;
      var count := InternalCount(storage, node);
      NodeReads(storage, es, cfg, globalStart, l, j, 0);
      entryStart := start;
      var i := 0;
      while true
        invariant 0 <= i < count
        invariant entryStart == From(cfg, l - 1, Child(cfg, j, i)) <= index
        decreases count - i
      {
        NodeReads(storage, es, cfg, globalStart, l, j, i);
        ChildBelow(cfg, j, i, count);
        if i == count - 1 {
          return ChildOffset(storage, node, i), entryStart, i;
        }
        NodeReads(storage, es, cfg, globalStart, l, j, i + 1);
        var next := ChildEntryStart(storage, node, i + 1);
        if index < next {
          return ChildOffset(storage, node, i), entryStart, i;
        }
        entryStart := next;
        i := i + 1;
      }
    }

    /** Entry number `index`, and nothing beyond the end. */
    method EntryAtIndex(index: nat, ghost es: seq<Entry>, ghost cfg: WriterConfig, ghost globalStart: nat)
            returns (e: Option<Entry>)
      requires Holds(es, cfg, globalStart)
      ensures e == if index < |es| then Some(es[index]) else None
    {
      hide PbtImage, Levels, FooterOf, LeafOffset, LeafOf, IndexInLeaf, LeafKey, LeafValue, LeavesReadable;
      HeightZero(es, cfg, globalStart);
      if footer.treeHeight == 0 {
        return None;
      }
      var found, leaf, entryIndex := FindIndex(index, es, cfg, globalStart);
      if !found {
        return None;
      }
      EntryAt(es, cfg, globalStart, index);
      e := Some(Entry(LeafKey(storage, leaf, entryIndex), LeafValue(storage, leaf, entryIndex)));
    }

    method Begin(ghost es: seq<Entry>, ghost cfg: WriterConfig, ghost globalStart: nat) returns (it: PbtIterator)
      requires Holds(es, cfg, globalStart)
      ensures fresh(it) && it.Valid() && it.Rest() == es && it.remaining == |es|
    {
      hide PbtImage, Levels, FooterOf, LeavesReadable, LeafOffset, LeafOf, IndexInLeaf;
      HeightZero(es, cfg, globalStart);
      FirstPlace(storage, es, cfg);
      it := new PbtIterator(storage, 0, 0, Count(), es, cfg);
      assert es[0..] == es;
    }

    method End(ghost es: seq<Entry>, ghost cfg: WriterConfig, ghost globalStart: nat) returns (it: PbtIterator)
      requires Holds(es, cfg, globalStart)
      ensures fresh(it) && it.Valid() && it.Rest() == []
    {
      hide PbtImage, Levels, FooterOf, LeavesReadable, LeafOffset, LeafOf, IndexInLeaf;
      HeightZero(es, cfg, globalStart);
      it := new PbtIterator(storage, 0, 0, 0, es, cfg);
    }

    /** The suffix that starts at `index`; the end when there is none. */
    method Seek(index: nat, ghost es: seq<Entry>, ghost cfg: WriterConfig, ghost globalStart: nat)
            returns (it: PbtIterator)
      requires Holds(es, cfg, globalStart)
      ensures fresh(it) && it.Valid() && it.Rest() == if index < |es| then es[index..] else []
    {
      hide PbtImage, Levels, FooterOf, LeavesReadable, LeafOffset, LeafOf, IndexInLeaf;
      HeightZero(es, cfg, globalStart);
      if footer.treeHeight == 0 {
        it := End(es, cfg, globalStart);
        return;
      }
      var found, leaf, entryIndex := FindIndex(index, es, cfg, globalStart);
      if !found {
        it := End(es, cfg, globalStart);
        return;
      }
      it := new PbtIterator(storage, leaf, entryIndex, Count() - index, es, cfg);
    }

    /** The suffix from where the search ends, or the end; on sorted entries that is the lower bound. */
    method SeekFirst(key: Bytes, ghost es: seq<Entry>, ghost cfg: WriterConfig, ghost globalStart: nat)
      returns (it: PbtIterator, ghost at: nat)
      requires Holds(es, cfg, globalStart)
      ensures cfg.Allowed() && fresh(it) && it.Stands(es, at) && at == SeekPlace(es, cfg, key)
      ensures Sorted(es) ==> IsLowerBound(es, key, at)
    {
      hide PbtImage, Levels, FooterOf, LeavesReadable, LeafOffset, LeafOf, IndexInLeaf, Sorted, IsLowerBound, Search;
      HeightZero(es, cfg, globalStart);
      SeekPlaceFacts(es, cfg, key);
      at := |es|;
      if footer.treeHeight == 0 {
        it := new PbtIterator(storage, 0, 0, 0, es, cfg);
        return;
      }
      var found, leaf, entryIndex, entryStart := Find(key, GreaterOrEqual, es, cfg, globalStart);
      if !found {
        it := new PbtIterator(storage, 0, 0, 0, es, cfg);
        return;
      }
      at := entryStart;
      it := new PbtIterator(storage, leaf, entryIndex, Count() - entryStart, es, cfg);
    }

    // A second iterator at the same place.
    method CopyAt(it: PbtIterator, ghost es: seq<Entry>, ghost at: nat) returns (copy: PbtIterator)
      requires it.Stands(es, at)
      ensures fresh(copy) && copy.Stands(es, at)
    {
      hide PbtIterator.Valid;
      copy := new PbtIterator.Copy(it);
    }

    // One step of an iterator whose place is known.
    method StepOn(it: PbtIterator, ghost es: seq<Entry>, ghost at: nat)
      requires it.Stands(es, at) && at < |es|
      modifies it
      ensures it.Stands(es, at + 1)
    {
      hide PbtIterator.Valid;
      it.Next();
    }

    lemma StandsAt(it: PbtIterator, es: seq<Entry>, at: nat)
      requires it.Stands(es, at)
      ensures (it.IsEnd() <==> at == |es|) && at <= |es|
      ensures at < |es| ==> it.GetKey() == es[at].key
    {
      hide PbtIterator.Valid;
    }

    // The walk of `seek_last`, with a second iterator one step ahead.
    method WalkEqual(it: PbtIterator, key: Bytes, ghost es: seq<Entry>, ghost p: nat) returns (ghost at: nat)
      requires it.Stands(es, p) && p < |es|
      modifies it
      ensures it.Stands(es, at) && at == WalkEnd(es, key, p)
    {
      hide Sorted, Less, PbtIterator.Stands, PbtIterator.Valid, WalkEnd;
      at := p;
      var next := CopyAt(it, es, p);
      while true
        invariant fresh(next) && it.Stands(es, at) && next.Stands(es, at)
        invariant p <= at < |es| && WalkEnd(es, key, at) == WalkEnd(es, key, p)
        decreases |es| - at
      {
        StepOn(next, es, at);
        StandsAt(next, es, at + 1);
        WalkStep(es, key, at);
        if next.IsEnd() || Less(key, next.GetKey()) {
          return;
        }
        StepOn(it, es, at);
        at := at + 1;
      }
    }

    /** On sorted entries: the last entry with the key if there is one, else the first entry above it, else the end. */
    method SeekLast(key: Bytes, ghost es: seq<Entry>, ghost cfg: WriterConfig, ghost globalStart: nat)
      returns (it: PbtIterator, ghost at: nat)
      requires Holds(es, cfg, globalStart)
      ensures cfg.Allowed() && fresh(it) && it.Stands(es, at) && at == LastSeekPlace(es, cfg, key)
      ensures Sorted(es) ==> IsLastPlace(es, key, at)
    {
      hide PbtImage, Levels, FooterOf, Sorted, Less, IsUpperBound, IsLowerBound, IsLastPlace, PbtIterator.Valid;
      hide PbtIterator.Stands, SeekPlace, WalkEnd;
      it, at := SeekFirst(key, es, cfg, globalStart);
      LastSorted(es, cfg, key);
      StandsAt(it, es, at);
      if it.IsEnd() {
        return;
      }
      at := WalkEqual(it, key, es, at);
    }

    /** On sorted entries: the first entry above the key. */
    method SeekNext(key: Bytes, ghost es: seq<Entry>, ghost cfg: WriterConfig, ghost globalStart: nat)
      returns (it: PbtIterator, ghost at: nat)
      requires Holds(es, cfg, globalStart)
      ensures cfg.Allowed() && fresh(it) && it.Stands(es, at) && at == NextSeekPlace(es, cfg, key)
      ensures Sorted(es) ==> IsUpperBound(es, key, at)
    {
      hide PbtImage, Levels, FooterOf, Sorted, Less, IsUpperBound, IsLowerBound, IsLastPlace, PbtIterator.Valid;
      hide PbtIterator.Stands, LastSeekPlace;
      it, at := SeekLast(key, es, cfg, globalStart);
      LastSorted(es, cfg, key);
      StandsAt(it, es, at);
      if it.IsEnd() {
        return;
      }
      if it.GetKey() == key {
        StepOn(it, es, at);
        at := at + 1;
      }
    }
  }

  /** What a finished file holds: its entries, the configuration it was written with and its first global index. */
  datatype FileModel = FileModel(entries: seq<Entry>, cfg: WriterConfig, start: nat)

  ghost predicate OpenOn(readers: seq<Reader>, files: seq<FileModel>) {
    |readers| == |files| && forall i :: 0 <= i < |readers| ==>
        readers[i].Holds(files[i].entries, files[i].cfg, files[i].start)
  }

  ghost function RunsOf(files: seq<FileModel>): (runs: seq<seq<Entry>>)
    ensures |runs| == |files| && forall i :: 0 <= i < |files| ==> runs[i] == files[i].entries
  {
    seq(|files|, i requires 0 <= i < |files| => files[i].entries)
  }

  /** Opens a reader on a file image; fails on a bad magic number or version. */
  function OpenReader(image: Bytes): (r: Option<Reader>)
    ensures r.Some? ==> r.value.storage == image && r.value.footer.Validate()
  {
    if |image| < FOOTER_SIZE then None else
      var footer := ReadFooter(image, |image| - FOOTER_SIZE);
      if footer.Validate() then Some(Reader(footer, image)) else None
  }

  /** Whatever the writer finishes, the reader opens, on the same entries. */
  lemma OpenFinished(image: Bytes, es: seq<Entry>, cfg: WriterConfig, globalStart: nat)
    requires IsFile(image, es, cfg, globalStart)
    ensures OpenReader(image).Some? && OpenReader(image).value.Holds(es, cfg, globalStart)
  {
    hide PbtImage, FooterOf, ReadFooter, Fits;
    FooterReads(image, es, cfg, globalStart);
  }

  /** A file is accepted exactly when it is long enough for a footer and ends with the version and the magic number. */
  lemma OpensIff(image: Bytes)
    ensures OpenReader(image).Some? <==> |image| >= FOOTER_SIZE && image[|image| - 8..] == FILE_END
  {
    hide ReadUint, Encode, FILE_END;
    if |image| >= FOOTER_SIZE {
      var at := |image| - FOOTER_SIZE;
      Limits();
      EndBytes();
      ReadsAs(image, at + 34, VERSION_MAJOR, 2);
      ReadsAs(image, at + 36, VERSION_MINOR, 2);
      ReadsAs(image, at + 38, MAGIC, 4);
      EndParts(image[at + 34..at + 36], image[at + 36..at + 38], image[at + 38..at + 42]);
      ThreeParts(image, at + 34);
    }
  }

  lemma ThreeParts(image: Bytes, at: nat)
    requires at + 8 == |image|
    ensures image[at..] == image[at..at + 2] + image[at + 2..at + 4] + image[at + 4..at + 8]
  {
  }

  lemma EndParts(major: Bytes, minor: Bytes, magic: Bytes)
    requires |major| == |minor| == 2 && |magic| == 4
    ensures major + minor + magic == FILE_END <==>
            major == [0, 0] && minor == [1, 0] && magic == [0x11, 0x11, 0xAF, 0x1E]
  {
    var all := major + minor + magic;
    assert all[..2] == major && all[2..4] == minor && all[4..] == magic;
    assert FILE_END[..2] == [0, 0] && FILE_END[2..4] == [1, 0] && FILE_END[4..] == [0x11, 0x11, 0xAF, 0x1E];
  }
}
