// The packed B-tree file as a value: leaf level, internal levels, footer, and what is stored where.
module Packing {
  import opened Bytes
  import opened Entries
  import opened Grouping
  import opened Structures

  /** `reduce` stands for the user's callback, as a function of the list of values it is given. */
  datatype WriterConfig = WriterConfig(maxNodeChildren: nat, reduce: Option<seq<Bytes> -> Bytes>)
  {
    /** With fan-out 1 the build never ends; a node counts its children in 16 bits. */
    predicate Allowed() { 2 <= maxNodeChildren < U16_LIMIT }

    /** Without a callback every reduced value is the empty string. */
    function Reduce(values: seq<Bytes>): Bytes {
      if reduce.None? then [] else reduce.value(values)
    }
  }

  function Reductions(hs: seq<Handle>): seq<Bytes> {
    seq(|hs|, i requires 0 <= i < |hs| => hs[i].reduced)
  }

  function LeafHandle(es: seq<Entry>, start: nat, offset: nat, cfg: WriterConfig): Handle
    requires es != []
  {
    Handle(start, offset, |LeafImage(es)|, es[0].key, es[|es| - 1].key, cfg.Reduce(Values(es)))
  }

  function ParentHandle(hs: seq<Handle>, offset: nat, cfg: WriterConfig): Handle
    requires hs != []
  {
    Handle(hs[0].start, offset, |InternalImage(hs)|, hs[0].left, hs[|hs| - 1].right, cfg.Reduce(Reductions(hs)))
  }

  ghost predicate NoneEmpty<T>(cs: seq<seq<T>>) {
    forall i :: 0 <= i < |cs| ==> cs[i] != []
  }

  // ---- One level: its nodes back to back, and the handles of its nodes.

  function EntryCount<T>(cs: seq<seq<T>>): nat {
    if cs == [] then 0 else EntryCount(cs[..|cs| - 1]) + |cs[|cs| - 1]|
  }

  function LeafRegion(cs: seq<seq<Entry>>): Bytes {
    if cs == [] then [] else LeafRegion(cs[..|cs| - 1]) + LeafImage(cs[|cs| - 1])
  }

  function LeafHandles(cs: seq<seq<Entry>>, cfg: WriterConfig): (hs: seq<Handle>)
    requires NoneEmpty(cs)
    ensures |hs| == |cs|
  {
    if cs == [] then [] else
      var front := cs[..|cs| - 1];
      LeafHandles(front, cfg) + [LeafHandle(cs[|cs| - 1], EntryCount(front), |LeafRegion(front)|, cfg)]
  }

  function ParentRegion(cs: seq<seq<Handle>>): Bytes
    requires NoneEmpty(cs)
  {
    if cs == [] then [] else ParentRegion(cs[..|cs| - 1]) + InternalImage(cs[|cs| - 1])
  }

  function ParentHandles(cs: seq<seq<Handle>>, base: nat, cfg: WriterConfig): (hs: seq<Handle>)
    requires NoneEmpty(cs)
    ensures |hs| == |cs|
  {
    if cs == [] then [] else
      var front := cs[..|cs| - 1];
      ParentHandles(front, base, cfg) + [ParentHandle(cs[|cs| - 1], base + |ParentRegion(front)|, cfg)]
  }

  // ---- All levels.

  /** The levels from `hs` up to the root level, which has one node (or none when there are no entries). */
  function Tower(hs: seq<Handle>, base: nat, cfg: WriterConfig): (levels: seq<seq<Handle>>)
    requires cfg.Allowed()
    ensures |levels| > 0 && levels[0] == hs && |levels[|levels| - 1]| <= 1
    ensures hs != [] ==> |levels[|levels| - 1]| == 1
    decreases |hs|
  {
    if |hs| <= 1 then [hs] else
      var groups := Chunks(hs, cfg.maxNodeChildren);
      ChunksAt(hs, cfg.maxNodeChildren);
      DivCeilBounds(|hs|, cfg.maxNodeChildren);
      [hs] + Tower(ParentHandles(groups, base, cfg), base + |ParentRegion(groups)|, cfg)
  }

  /** The bytes of the levels above `hs`. */
  function TowerRegion(hs: seq<Handle>, base: nat, cfg: WriterConfig): Bytes
    requires cfg.Allowed()
    decreases |hs|
  {
    if |hs| <= 1 then [] else
      var groups := Chunks(hs, cfg.maxNodeChildren);
      ChunksAt(hs, cfg.maxNodeChildren);
      DivCeilBounds(|hs|, cfg.maxNodeChildren);
      ParentRegion(groups)
      + TowerRegion(ParentHandles(groups, base, cfg), base + |ParentRegion(groups)|, cfg)
  }

  function Groups(es: seq<Entry>, cfg: WriterConfig): seq<seq<Entry>>
    requires cfg.Allowed()
  {
    Chunks(es, cfg.maxNodeChildren)
  }

  function Levels(es: seq<Entry>, cfg: WriterConfig): (levels: seq<seq<Handle>>)
    requires cfg.Allowed()
    ensures |levels| > 0
  {
    Tower(LeafHandles(Groups(es, cfg), cfg), |LeafRegion(Groups(es, cfg))|, cfg)
  }

  function FooterOf(es: seq<Entry>, cfg: WriterConfig, globalStart: nat): Footer
    requires cfg.Allowed()
  {
    var levels := Levels(es, cfg);
    var top := levels[|levels| - 1];
    Footer(if top == [] then 0 else top[0].offset, if top == [] then 0 else top[0].size,
           if es == [] then 0 else |levels|, globalStart, globalStart + |es|, VERSION_MAJOR, VERSION_MINOR, MAGIC)
  }

  /** The nodes of the file, without the footer. */
  function Nodes(es: seq<Entry>, cfg: WriterConfig): Bytes
    requires cfg.Allowed()
  {
    var leaves := LeafRegion(Groups(es, cfg));
    leaves + TowerRegion(LeafHandles(Groups(es, cfg), cfg), |leaves|, cfg)
  }

  /** The whole file. */
  function PbtImage(es: seq<Entry>, cfg: WriterConfig, globalStart: nat): Bytes
    requires cfg.Allowed()
  {
    Nodes(es, cfg) + FooterImage(FooterOf(es, cfg, globalStart))
  }

  /** Every size and position of the file fits the 64-bit fields that store it. */
  predicate Fits(es: seq<Entry>, cfg: WriterConfig, globalStart: nat)
    requires cfg.Allowed()
  {
    |PbtImage(es, cfg, globalStart)| < U64_LIMIT && globalStart + |es| < U64_LIMIT
  }

  // ---- What is stored, level by level.

  ghost predicate LeafStored(image: Bytes, es: seq<Entry>, cfg: WriterConfig, hs: seq<Handle>, j: nat)
    requires cfg.Allowed() && j < |hs| && j < DivCeil(|es|, cfg.maxNodeChildren)
  {
    var c := Chunk(es, cfg.maxNodeChildren, j);
    hs[j] == LeafHandle(c, j * cfg.maxNodeChildren, hs[j].offset, cfg) && At(image, hs[j].offset, LeafImage(c))
  }

  ghost predicate LeavesStored(image: Bytes, es: seq<Entry>, cfg: WriterConfig, hs: seq<Handle>)
    requires cfg.Allowed()
  {
    && |hs| == DivCeil(|es|, cfg.maxNodeChildren)
    && forall j :: 0 <= j < |hs| ==> LeafStored(image, es, cfg, hs, j)
  }

  ghost predicate NodeStored(image: Bytes, below: seq<Handle>, cfg: WriterConfig, hs: seq<Handle>, j: nat)
    requires cfg.Allowed() && j < |hs| && j < DivCeil(|below|, cfg.maxNodeChildren)
  {
    var c := Chunk(below, cfg.maxNodeChildren, j);
    hs[j] == ParentHandle(c, hs[j].offset, cfg) && At(image, hs[j].offset, InternalImage(c))
  }

  ghost predicate NodesStored(image: Bytes, below: seq<Handle>, cfg: WriterConfig, hs: seq<Handle>)
    requires cfg.Allowed()
  {
    && |hs| == DivCeil(|below|, cfg.maxNodeChildren)
    && forall j :: 0 <= j < |hs| ==> NodeStored(image, below, cfg, hs, j)
  }

  /** `image` stores a packed tree with these levels over `es`. */
  ghost predicate TreeStored(image: Bytes, es: seq<Entry>, cfg: WriterConfig, levels: seq<seq<Handle>>)
    requires cfg.Allowed()
  {
    && |levels| > 0
    && LeavesStored(image, es, cfg, levels[0])
    && UpperStored(image, cfg, levels)
  }

  ghost predicate UpperStored(image: Bytes, cfg: WriterConfig, levels: seq<seq<Handle>>)
    requires cfg.Allowed()
  {
    forall l :: 1 <= l < |levels| ==> NodesStored(image, levels[l - 1], cfg, levels[l])
  }

  lemma {:induction false} LeafLevelAt(cs: seq<seq<Entry>>, cfg: WriterConfig, j: nat)
    requires j < |cs| && NoneEmpty(cs)
    ensures LeafHandles(cs, cfg)[j] == LeafHandle(cs[j], EntryCount(cs[..j]), |LeafRegion(cs[..j])|, cfg)
    ensures At(LeafRegion(cs), |LeafRegion(cs[..j])|, LeafImage(cs[j]))
  {
    hide At, LeafImage, LeafHandle, EntryCount;
    var front := cs[..|cs| - 1];
    if j < |front| {
      LeafLevelAt(front, cfg, j);
      assert front[..j] == cs[..j] && front[j] == cs[j];
      AtExtend(LeafRegion(front), LeafImage(cs[|front|]), |LeafRegion(cs[..j])|, LeafImage(cs[j]));
    } else {
      assert front == cs[..j];
      AtEnd(LeafRegion(front), LeafImage(cs[j]));
    }
  }

  lemma {:induction false} ParentLevelAt(cs: seq<seq<Handle>>, base: nat, cfg: WriterConfig, j: nat)
    requires j < |cs| && NoneEmpty(cs)
    ensures ParentHandles(cs, base, cfg)[j] == ParentHandle(cs[j], base + |ParentRegion(cs[..j])|, cfg)
    ensures At(ParentRegion(cs), |ParentRegion(cs[..j])|, InternalImage(cs[j]))
  {
    hide At, InternalImage, ParentHandle;
    var front := cs[..|cs| - 1];
    if j < |front| {
      ParentLevelAt(front, base, cfg, j);
      assert front[..j] == cs[..j] && front[j] == cs[j];
      AtExtend(ParentRegion(front), InternalImage(cs[|front|]), |ParentRegion(cs[..j])|, InternalImage(cs[j]));
    } else {
      assert front == cs[..j];
      AtEnd(ParentRegion(front), InternalImage(cs[j]));
    }
  }

  /** All groups before the last are full, so a group's first entry is its position times the group size. */
  lemma {:induction false} EntryCountFull<T>(s: seq<T>, size: nat, j: nat)
    requires size > 0 && j < |Chunks(s, size)|
    ensures EntryCount(Chunks(s, size)[..j]) == j * size
  {
    hide Chunks;
    var cs := Chunks(s, size);
    ChunksAt(s, size);
    if j > 0 {
      EntryCountFull(s, size, j - 1);
      assert cs[..j][..j - 1] == cs[..j - 1] && cs[..j][j - 1] == cs[j - 1];
      Distribute(j - 1, 1, size);
      ChunkBounds(|s|, size, j - 1);
      hide *;
    }
  }

  lemma LeavesAreStored(image: Bytes, es: seq<Entry>, cfg: WriterConfig)
    requires cfg.Allowed() && At(image, 0, LeafRegion(Groups(es, cfg)))
    ensures LeavesStored(image, es, cfg, LeafHandles(Groups(es, cfg), cfg))
  {
    hide At, Chunks, LeafRegion, LeafHandles, LeafImage, Chunk, EntryCount;
    var cs := Groups(es, cfg);
    ChunksAt(es, cfg.maxNodeChildren);
    forall j | 0 <= j < |cs| ensures LeafStored(image, es, cfg, LeafHandles(cs, cfg), j) {
      LeafLevelAt(cs, cfg, j);
      EntryCountFull(es, cfg.maxNodeChildren, j);
      AtWithin(image, 0, LeafRegion(cs), |LeafRegion(cs[..j])|, LeafImage(cs[j]));
    }
  }

  lemma NodesAreStored(image: Bytes, below: seq<Handle>, base: nat, cfg: WriterConfig)
    requires cfg.Allowed() && At(image, base, ParentRegion(Chunks(below, cfg.maxNodeChildren)))
    ensures NodesStored(image, below, cfg, ParentHandles(Chunks(below, cfg.maxNodeChildren), base, cfg))
  {
    hide At, Chunks, ParentRegion, ParentHandles, InternalImage, Chunk;
    var cs := Chunks(below, cfg.maxNodeChildren);
    ChunksAt(below, cfg.maxNodeChildren);
    forall j | 0 <= j < |cs| ensures NodeStored(image, below, cfg, ParentHandles(cs, base, cfg), j) {
      ParentLevelAt(cs, base, cfg, j);
      AtWithin(image, base, ParentRegion(cs), |ParentRegion(cs[..j])|, InternalImage(cs[j]));
    }
  }

  lemma {:induction false} TowerIsStored(image: Bytes, hs: seq<Handle>, base: nat, cfg: WriterConfig)
    requires cfg.Allowed() && At(image, base, TowerRegion(hs, base, cfg))
    ensures UpperStored(image, cfg, Tower(hs, base, cfg))
    decreases |hs|
  {
    hide At, Chunks, ParentRegion, ParentHandles, NodesStored, DivCeil;
    if |hs| > 1 {
      var groups := Chunks(hs, cfg.maxNodeChildren);
      ChunksAt(hs, cfg.maxNodeChildren);
      DivCeilBounds(|hs|, cfg.maxNodeChildren);
      var up, next := ParentHandles(groups, base, cfg), base + |ParentRegion(groups)|;
      AtSplit(image, base, ParentRegion(groups), TowerRegion(up, next, cfg));
      NodesAreStored(image, hs, base, cfg);
      TowerIsStored(image, up, next, cfg);
      var levels, upper := Tower(hs, base, cfg), Tower(up, next, cfg);
      forall l | 1 <= l < |levels| ensures NodesStored(image, levels[l - 1], cfg, levels[l]) {
        assert levels[l] == upper[l - 1];
        if l > 1 {
          assert levels[l - 1] == upper[l - 2];
        }
      }
    }
  }

  /** The file stores exactly the tree it was laid out for, and its footer reads back. */
  lemma ImageStoresTree(es: seq<Entry>, cfg: WriterConfig, globalStart: nat)
    requires cfg.Allowed()
    ensures var image := PbtImage(es, cfg, globalStart);
            && At(image, 0, LeafRegion(Groups(es, cfg)))
            && TreeStored(image, es, cfg, Levels(es, cfg))
            && |image| >= FOOTER_SIZE
            && At(image, |image| - FOOTER_SIZE, FooterImage(FooterOf(es, cfg, globalStart)))
  {
    hide LeafRegion, LeafHandles, Chunks, TowerRegion, Tower, FooterImage, FooterOf, UpperStored, LeavesStored, At;
    var image := PbtImage(es, cfg, globalStart);
    var leaves := LeafRegion(Groups(es, cfg));
    var hs := LeafHandles(Groups(es, cfg), cfg);
    var tower := TowerRegion(hs, |leaves|, cfg);
    AtEnd([], image);
    assert [] + image == image;
    AtSplit(image, 0, leaves + tower, FooterImage(FooterOf(es, cfg, globalStart)));
    AtSplit(image, 0, leaves, tower);
    LeavesAreStored(image, es, cfg);
    TowerIsStored(image, hs, |leaves|, cfg);
  }
}
