// What a reader can rely on: a file written for `es` reads back, node by node, as the levels of its packed tree.
// Readers never look at the packed tree itself, only at offsets; these lemmas say what the offsets hold.
module StoredFile {
  import opened Bytes
  import opened Entries
  import opened Grouping
  import opened Structures
  import opened Packing
  import opened PackedShape
  import opened PbtIteration

  /** `image` is the finished file of `es`, and everything in it fits its field. */
  ghost predicate IsFile(image: Bytes, es: seq<Entry>, cfg: WriterConfig, globalStart: nat) {
    cfg.Allowed() && Fits(es, cfg, globalStart) && image == PbtImage(es, cfg, globalStart)
  }

  lemma {:induction false} PowAtLeast(b: nat, w: nat)
    requires b >= 2
    ensures Pow(b, 8 * w) >= Limit(w)
  {
    if w > 0 {
      PowAtLeast(b, w - 1);
      var p0 := Pow(b, 8 * w - 8);
      var p1, p2, p3, p4 := Pow(b, 8 * w - 7), Pow(b, 8 * w - 6), Pow(b, 8 * w - 5), Pow(b, 8 * w - 4);
      var p5, p6, p7 := Pow(b, 8 * w - 3), Pow(b, 8 * w - 2), Pow(b, 8 * w - 1);
      Monotone(2, b, p0);
      Monotone(2, b, p1);
      Monotone(2, b, p2);
      Monotone(2, b, p3);
      Monotone(2, b, p4);
      Monotone(2, b, p5);
      Monotone(2, b, p6);
      Monotone(2, b, p7);
    }
  }

  lemma {:induction false} PowGrows(b: nat, e: nat, f: nat)
    requires b >= 1 && e <= f
    ensures Pow(b, e) <= Pow(b, f)
    decreases f
  {
    if e < f {
      PowGrows(b, e, f - 1);
      PowPositive(b, f - 1);
      Monotone(1, b, Pow(b, f - 1));
    }
  }

  /** A file whose sizes fit has height at most 64. */
  lemma HeightBound(es: seq<Entry>, cfg: WriterConfig, globalStart: nat)
    requires cfg.Allowed() && |es| < U64_LIMIT
    ensures FooterOf(es, cfg, globalStart).treeHeight <= 64
  {
    hide FooterOf, Levels;
    var h := FooterOf(es, cfg, globalStart).treeHeight;
    Height(es, cfg, globalStart);
    if h > 64 {
      PowAtLeast(cfg.maxNodeChildren, 8);
      PowGrows(cfg.maxNodeChildren, 64, h - 1);
      Limits();
    }
  }

  lemma FileStores(image: Bytes, es: seq<Entry>, cfg: WriterConfig, globalStart: nat)
    requires IsFile(image, es, cfg, globalStart)
    ensures TreeStored(image, es, cfg, Levels(es, cfg)) && LeavesReadable(image, es, cfg)
  {
    hide TreeStored, At, Groups, Levels;
    ImageStoresTree(es, cfg, globalStart);
  }

  /** The root handle in the footer names the single node of the top level. */
  lemma RootHandle(image: Bytes, es: seq<Entry>, cfg: WriterConfig, globalStart: nat)
    requires IsFile(image, es, cfg, globalStart) && es != []
    ensures var levels, f := Levels(es, cfg), FooterOf(es, cfg, globalStart);
            && f.treeHeight == |levels| && |levels[|levels| - 1]| == 1
            && f.rootOffset == levels[|levels| - 1][0].offset && f.rootSize == levels[|levels| - 1][0].size
  {
    hide TreeStored, At, Groups, Levels, PbtImage;
    Height(es, cfg, globalStart);
  }

  lemma HandlesFit(image: Bytes, es: seq<Entry>, cfg: WriterConfig, globalStart: nat, l: nat, j: nat)
    requires IsFile(image, es, cfg, globalStart)
    requires l < |Levels(es, cfg)| && j < |Levels(es, cfg)[l]|
    ensures HandleFits(Levels(es, cfg)[l][j])
  {
    hide Levels, PbtImage, LeafImage, InternalImage, DivCeil;
    var levels := Levels(es, cfg);
    FileStores(image, es, cfg, globalStart);
    NodeSpan(image, es, cfg, levels, l, j);
    if l == 0 {
      StoredLeaf(image, es, cfg, levels, j);
      LeafAddressable(image, levels[0][j].offset, Chunk(es, cfg.maxNodeChildren, j));
    } else {
      StoredNode(image, es, cfg, levels, l, j);
    }
  }

  /** Reading the footer of a finished file gives the footer it was finished with. */
  lemma FooterReads(image: Bytes, es: seq<Entry>, cfg: WriterConfig, globalStart: nat)
    requires IsFile(image, es, cfg, globalStart)
    ensures |image| >= FOOTER_SIZE
    ensures ReadFooter(image, |image| - FOOTER_SIZE) == FooterOf(es, cfg, globalStart)
    ensures FooterOf(es, cfg, globalStart).Validate()
  {
    hide Levels, PbtImage, ReadFooter, At, FooterImage, TreeStored, LeafRegion, HandleFits;
    var f, levels := FooterOf(es, cfg, globalStart), Levels(es, cfg);
    HeightBound(es, cfg, globalStart);
    ImageStoresTree(es, cfg, globalStart);
    if es == [] {
      NoRoot(cfg, globalStart);
    } else {
      RootHandle(image, es, cfg, globalStart);
      HandlesFit(image, es, cfg, globalStart, |levels| - 1, 0);
      FitsMeans(levels[|levels| - 1][0]);
    }
    FooterRoundTrip(image, |image| - FOOTER_SIZE, f);
  }

  lemma FitsMeans(h: Handle)
    requires HandleFits(h)
    ensures h.start < U64_LIMIT && h.offset < U64_LIMIT && h.size < U64_LIMIT
  {
  }

  lemma NoRoot(cfg: WriterConfig, globalStart: nat)
    requires cfg.Allowed()
    ensures FooterOf([], cfg, globalStart) ==
            Footer(0, 0, 0, globalStart, globalStart, VERSION_MAJOR, VERSION_MINOR, MAGIC)
  {
    assert Groups([], cfg) == [];
    assert LeafHandles([], cfg) == [];
  }

  /** Child `k` of node (l, j) is node (l - 1, j * B + k). */
  function Child(cfg: WriterConfig, j: nat, k: nat): nat {
    j * cfg.maxNodeChildren + k
  }

  /** What the field readers find in internal node (l, j) about its child `k`. */
  lemma NodeReads(image: Bytes, es: seq<Entry>, cfg: WriterConfig, globalStart: nat, l: nat, j: nat, k: nat)
    requires IsFile(image, es, cfg, globalStart)
    requires 1 <= l < |Levels(es, cfg)| && j < |Levels(es, cfg)[l]|
    ensures var levels := Levels(es, cfg);
            var node, count := levels[l][j].offset, InternalCount(image, levels[l][j].offset);
            && 0 < count <= cfg.maxNodeChildren && Child(cfg, j, count) <= |levels[l - 1]|
            && LeftKey(image, node) == levels[l][j].left
            && From(cfg, l - 1, Child(cfg, j, 0)) == From(cfg, l, j)
            && To(cfg, |es|, l - 1, Child(cfg, j, count - 1)) == To(cfg, |es|, l, j)
            && (k < count ==>
                 && RightKey(image, node, k) == levels[l - 1][Child(cfg, j, k)].right
                 && ReducedValue(image, node, k) == levels[l - 1][Child(cfg, j, k)].reduced
                 && ChildEntryStart(image, node, k) == From(cfg, l - 1, Child(cfg, j, k))
                 && ChildOffset(image, node, k) == levels[l - 1][Child(cfg, j, k)].offset
                 && From(cfg, l - 1, Child(cfg, j, k)) < To(cfg, |es|, l - 1, Child(cfg, j, k))
                 && (k + 1 < count ==>
                      To(cfg, |es|, l - 1, Child(cfg, j, k)) == From(cfg, l - 1, Child(cfg, j, k + 1))))
  {
    hide Levels, PbtImage, InternalImage, At, TreeStored, From, To, DivCeil, Chunk, HandleFits, LeavesReadable;
    hide LeftKey, RightKey, ReducedValue, ChildEntryStart, ChildOffset, ChildSize, InternalCount, Reductions;
    var levels := Levels(es, cfg);
    FileStores(image, es, cfg, globalStart);
    StoredNode(image, es, cfg, levels, l, j);
    var c := Chunk(levels[l - 1], cfg.maxNodeChildren, j);
    var k' := if k < |c| then k else 0;
    HandlesFit(image, es, cfg, globalStart, l - 1, Child(cfg, j, k'));
    NodeAddressable(image, levels[l][j].offset, c);
    InternalReads(image, levels[l][j].offset, c, k');
    ChildSpans(image, es, cfg, levels, l, j, k');
    NodeSpan(image, es, cfg, levels, l - 1, Child(cfg, j, k'));
  }

  lemma NodeAddressable(image: Bytes, at: nat, c: seq<Handle>)
    requires c != [] && At(image, at, InternalImage(c))
    ensures at + |InternalImage(c)| <= |image|
  {
  }

  /** Leaf (0, j) lies where the chain of leaves puts it. */
  lemma LeafPlace(image: Bytes, es: seq<Entry>, cfg: WriterConfig, globalStart: nat, j: nat)
    requires IsFile(image, es, cfg, globalStart) && j < |Levels(es, cfg)[0]|
    ensures j < LeafCountOf(es, cfg) && Levels(es, cfg)[0][j].offset == LeafOffset(es, cfg, j)
    ensures var from, to := From(cfg, 0, j), To(cfg, |es|, 0, j);
            from < to <= |es| && LeafEntries(es, cfg, j) == es[from..to]
  {
    hide PbtImage, At, TreeStored, From, To, Chunks, LeafImage, LeafHandles, Tower, LeafRegion, EntryCount, DivCeil;
    hide LeafStored, LeavesReadable;
    hide Fits;
    ChunksAt(es, cfg.maxNodeChildren);
    FileStores(image, es, cfg, globalStart);
    StoredLeaf(image, es, cfg, Levels(es, cfg), j);
    LeafLevelAt(Groups(es, cfg), cfg, j);
  }

  /** The position of entry `i` of leaf `j`. */
  lemma PlaceOf(es: seq<Entry>, cfg: WriterConfig, j: nat, i: nat)
    requires cfg.Allowed() && From(cfg, 0, j) + i < To(cfg, |es|, 0, j)
    ensures LeafOf(cfg, From(cfg, 0, j) + i) == j && IndexInLeaf(cfg, From(cfg, 0, j) + i) == i
  {
    hide Span;
    SpanStep(cfg, 0, 0);
    Distribute(j, 1, cfg.maxNodeChildren);
    QuotientIs(From(cfg, 0, j) + i, cfg.maxNodeChildren, j);
  }

  // ---- Without a callback.

  ghost predicate NodeUnreduced(image: Bytes, node: nat) {
    forall k :: 0 <= k < InternalCount(image, node) ==> ReducedValue(image, node, k) == []
  }

  /** Every reduced value stored in the intermediate nodes is the empty string. */
  ghost predicate NoneReduced(image: Bytes, es: seq<Entry>, cfg: WriterConfig)
    requires cfg.Allowed()
  {
    var levels := Levels(es, cfg);
    forall l, j :: 1 <= l < |levels| && 0 <= j < |levels[l]| ==> NodeUnreduced(image, levels[l][j].offset)
  }

  lemma HandleUnreduced(image: Bytes, es: seq<Entry>, cfg: WriterConfig, globalStart: nat, l: nat, j: nat)
    requires IsFile(image, es, cfg, globalStart) && cfg.reduce.None?
    requires l < |Levels(es, cfg)| && j < |Levels(es, cfg)[l]|
    ensures Levels(es, cfg)[l][j].reduced == []
  {
    hide Levels, PbtImage, LeafImage, InternalImage, At, DivCeil, Fits, TreeStored, LeavesReadable;
    FileStores(image, es, cfg, globalStart);
    if l == 0 {
      StoredLeaf(image, es, cfg, Levels(es, cfg), j);
    } else {
      StoredNode(image, es, cfg, Levels(es, cfg), l, j);
    }
  }

  /** A file written without a callback stores no reduced value but the empty string. */
  lemma StoresUnreduced(image: Bytes, es: seq<Entry>, cfg: WriterConfig, globalStart: nat)
    requires IsFile(image, es, cfg, globalStart) && cfg.reduce.None?
    ensures NoneReduced(image, es, cfg)
  {
    hide Levels, PbtImage, Fits, InternalCount, ReducedValue, LeftKey, RightKey, ChildEntryStart, ChildOffset, From, To;
    var levels: seq<seq<Handle>> := Levels(es, cfg);
    forall l, j | 1 <= l < |levels| && 0 <= j < |levels[l]| ensures NodeUnreduced(image, levels[l][j].offset) {
      forall k | 0 <= k < InternalCount(image, levels[l][j].offset)
          ensures ReducedValue(image, levels[l][j].offset, k) == [] {
        NodeReads(image, es, cfg, globalStart, l, j, k);
        HandleUnreduced(image, es, cfg, globalStart, l - 1, Child(cfg, j, k));
      }
    }
  }

  // ---- The end of the file.

  /** Version 0.1 and the magic number, least significant byte first. */
  const FILE_END: Bytes := [0, 0, 1, 0, 0x11, 0x11, 0xAF, 0x1E]

  lemma FooterEnds(f: Footer)
    requires f.Validate()
    ensures FooterImage(f)[FOOTER_SIZE - 8..] == FILE_END
  {
    hide Encode;
    var tail := Encode(f.versionMajor, 2) + (Encode(f.versionMinor, 2) + Encode(f.magic, 4));
    EndBytes();
    assert FooterImage(f)[34..] == tail;
  }

  lemma EndBytes()
    ensures Encode(VERSION_MAJOR, 2) == [0, 0] && Encode(VERSION_MINOR, 2) == [1, 0]
    ensures Encode(MAGIC, 4) == [0x11, 0x11, 0xAF, 0x1E]
  {
    assert Encode(MAGIC, 4) == [0x11] + Encode(0x1EAF11, 3);
    assert Encode(0x1EAF11, 3) == [0x11] + Encode(0x1EAF, 2);
    assert Encode(0x1EAF, 2) == [0xAF] + Encode(0x1E, 1);
    assert Encode(0x1E, 1) == [0x1E] + Encode(0, 0);
    assert Encode(1, 2) == [1] + Encode(0, 1);
    assert Encode(0, 2) == [0] + Encode(0, 1);
    assert Encode(0, 1) == [0] + Encode(0, 0);
  }

  /** Every finished file ends with the same eight bytes. */
  lemma FileEnds(image: Bytes, es: seq<Entry>, cfg: WriterConfig, globalStart: nat)
    requires IsFile(image, es, cfg, globalStart)
    ensures |image| >= FOOTER_SIZE && image[|image| - 8..] == FILE_END
  {
    hide Levels, Nodes, FooterImage;
    var f := FooterOf(es, cfg, globalStart);
    FooterEnds(f);
    assert image[|image| - 8..] == FooterImage(f)[FOOTER_SIZE - 8..];
  }
}
