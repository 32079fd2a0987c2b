// The shape of a packed tree: nodes per level, height, and the entries a node covers.
module PackedShape {
  import opened Bytes
  import opened Entries
  import opened Grouping
  import opened Structures
  import opened Packing

  function Pow(b: nat, e: nat): nat {
    if e == 0 then 1 else b * Pow(b, e - 1)
  }

  lemma {:induction false} PowPositive(b: nat, e: nat)
    requires b > 0
    ensures Pow(b, e) > 0
  {
    if e > 0 {
      PowPositive(b, e - 1);
      Monotone(1, b, Pow(b, e - 1));
    }
  }

  /** Entries under a full node of level `l` (leaves are level 0). */
  function Span(cfg: WriterConfig, l: nat): (s: nat)
    requires cfg.Allowed()
    ensures s > 0
  {
    PowPositive(cfg.maxNodeChildren, l + 1);
    Pow(cfg.maxNodeChildren, l + 1)
  }

  lemma SpanStep(cfg: WriterConfig, l: nat, j: nat)
    requires cfg.Allowed()
    ensures Span(cfg, 0) == cfg.maxNodeChildren
    ensures Span(cfg, l + 1) == cfg.maxNodeChildren * Span(cfg, l)
    ensures j * Span(cfg, l + 1) == j * cfg.maxNodeChildren * Span(cfg, l)
  {
    assert Pow(cfg.maxNodeChildren, 1) == cfg.maxNodeChildren * Pow(cfg.maxNodeChildren, 0);
    Associate(j, cfg.maxNodeChildren, Span(cfg, l));
  }

  lemma Associate(a: nat, b: nat, c: nat)
    ensures a * (b * c) == a * b * c
  {
  }

  /** First entry under node `j` of level `l`, and the first entry after it. */
  function From(cfg: WriterConfig, l: nat, j: nat): nat
    requires cfg.Allowed()
  {
    j * Span(cfg, l)
  }

  function To(cfg: WriterConfig, n: nat, l: nat, j: nat): nat
    requires cfg.Allowed()
  {
    Min((j + 1) * Span(cfg, l), n)
  }

  /** Rounding up twice is rounding up once. */
  lemma DivCeilTwice(n: nat, a: nat, b: nat)
    requires a > 0 && b > 0
    ensures b * a > 0 && DivCeil(DivCeil(n, a), b) == DivCeil(n, b * a)
  {
    var p := DivCeil(n, a);
    var m := DivCeil(p, b);
    DivCeilBounds(n, a);
    DivCeilBounds(p, b);
    Monotone(1, b, a);
    Associate(m, b, a);
    Monotone(p, m * b, a);
    // p - 1 is at least (m - 1) * b, and n is above (p - 1) * a
    if m > 0 {
      Distribute(m - 1, 1, b);
      Distribute(p - 1, 1, a);
      Monotone((m - 1) * b, p - 1, a);
      Associate(m - 1, b, a);
      Distribute(m - 1, 1, b * a);
    }
    DivCeilIs(n, b * a, m);
  }

  /** Level `l` of a stored tree has ceil(n / B^(l+1)) nodes. */
  lemma {:induction false} LevelCount(image: Bytes, es: seq<Entry>, cfg: WriterConfig, levels: seq<seq<Handle>>, l: nat)
    requires cfg.Allowed() && TreeStored(image, es, cfg, levels) && l < |levels|
    ensures |levels[l]| == DivCeil(|es|, Span(cfg, l))
  {
    hide LeavesStored, NodesStored, Span;
    SpanStep(cfg, l, 0);
    if l == 0 {
      CountLeaves(image, es, cfg, levels);
    } else {
      LevelCount(image, es, cfg, levels, l - 1);
      CountNodes(image, es, cfg, levels, l);
      SpanStep(cfg, l - 1, 0);
      DivCeilTwice(|es|, Span(cfg, l - 1), cfg.maxNodeChildren);
    }
  }

  lemma CountLeaves(image: Bytes, es: seq<Entry>, cfg: WriterConfig, levels: seq<seq<Handle>>)
    requires cfg.Allowed() && TreeStored(image, es, cfg, levels)
    ensures |levels[0]| == DivCeil(|es|, cfg.maxNodeChildren)
  {
  }

  lemma CountNodes(image: Bytes, es: seq<Entry>, cfg: WriterConfig, levels: seq<seq<Handle>>, l: nat)
    requires cfg.Allowed() && TreeStored(image, es, cfg, levels) && 1 <= l < |levels|
    ensures |levels[l]| == DivCeil(|levels[l - 1]|, cfg.maxNodeChildren)
    ensures NodesStored(image, levels[l - 1], cfg, levels[l])
  {
  }

  /** Handle `j` of level `l` starts at entry j * B^(l+1) and carries the outermost keys of the entries it covers. */
  lemma {:induction false} NodeSpan(image: Bytes, es: seq<Entry>, cfg: WriterConfig, levels: seq<seq<Handle>>, l: nat,
          j: nat)
    requires cfg.Allowed() && TreeStored(image, es, cfg, levels) && l < |levels| && j < |levels[l]|
    ensures From(cfg, l, j) < To(cfg, |es|, l, j) <= |es|
    ensures levels[l][j].start == From(cfg, l, j)
    ensures levels[l][j].left == es[From(cfg, l, j)].key
    ensures levels[l][j].right == es[To(cfg, |es|, l, j) - 1].key
  {
    hide LeavesStored, NodesStored, Span, LeafImage, InternalImage, At;
    var n, b := |es|, cfg.maxNodeChildren;
    LevelCount(image, es, cfg, levels, l);
    ChunkBounds(n, Span(cfg, l), j);
    SpanStep(cfg, 0, 0);
    if l == 0 {
      CountLeaves(image, es, cfg, levels);
      StoredLeaf(image, es, cfg, levels, j);
    } else {
      CountNodes(image, es, cfg, levels, l);
      var below := levels[l - 1];
      StoredNode(image, es, cfg, levels, l, j);
      ChildSpans(image, es, cfg, levels, l, j, 0);
      var last := j * b + |Chunk(below, b, j)| - 1;
      NodeSpan(image, es, cfg, levels, l - 1, j * b);
      NodeSpan(image, es, cfg, levels, l - 1, last);
    }
  }

  lemma StoredLeaf(image: Bytes, es: seq<Entry>, cfg: WriterConfig, levels: seq<seq<Handle>>, j: nat)
    requires cfg.Allowed() && TreeStored(image, es, cfg, levels) && j < |levels[0]|
    ensures |levels[0]| == DivCeil(|es|, cfg.maxNodeChildren) && LeafStored(image, es, cfg, levels[0], j)
    ensures From(cfg, 0, j) < To(cfg, |es|, 0, j) <= |es|
    ensures var c := Chunk(es, cfg.maxNodeChildren, j);
            c == es[From(cfg, 0, j)..To(cfg, |es|, 0, j)] && levels[0][j].start == From(cfg, 0, j)
            && levels[0][j].left == c[0].key && levels[0][j].right == c[|c| - 1].key
  {
    hide LeafImage, At, Span;
    SpanStep(cfg, 0, 0);
    ChunkBounds(|es|, cfg.maxNodeChildren, j);
    assert LeafStored(image, es, cfg, levels[0], j);
  }

  lemma StoredNode(image: Bytes, es: seq<Entry>, cfg: WriterConfig, levels: seq<seq<Handle>>, l: nat, j: nat)
    requires cfg.Allowed() && TreeStored(image, es, cfg, levels) && 1 <= l < |levels| && j < |levels[l]|
    ensures |levels[l]| == DivCeil(|levels[l - 1]|, cfg.maxNodeChildren)
    ensures NodeStored(image, levels[l - 1], cfg, levels[l], j)
    ensures var c := Chunk(levels[l - 1], cfg.maxNodeChildren, j);
            && j * cfg.maxNodeChildren + |c| <= |levels[l - 1]|
            && c == levels[l - 1][j * cfg.maxNodeChildren..j * cfg.maxNodeChildren + |c|]
            && levels[l][j].start == c[0].start
            && levels[l][j].left == c[0].left && levels[l][j].right == c[|c| - 1].right
            && levels[l][j].reduced == cfg.Reduce(Reductions(c))
  {
    hide InternalImage, At;
    CountNodes(image, es, cfg, levels, l);
    ChunkBounds(|levels[l - 1]|, cfg.maxNodeChildren, j);
    assert NodeStored(image, levels[l - 1], cfg, levels[l], j);
  }

  /** The children of a node cover its entries, one after the other. */
  lemma ChildSpans(image: Bytes, es: seq<Entry>, cfg: WriterConfig, levels: seq<seq<Handle>>,
                                      l: nat, j: nat, k: nat)
    requires cfg.Allowed() && TreeStored(image, es, cfg, levels) && 1 <= l < |levels| && j < |levels[l]|
    requires |levels[l]| == DivCeil(|levels[l - 1]|, cfg.maxNodeChildren)
    requires k < |Chunk(levels[l - 1], cfg.maxNodeChildren, j)|
    ensures var first, count := j * cfg.maxNodeChildren, |Chunk(levels[l - 1], cfg.maxNodeChildren, j)|;
            && first + count <= |levels[l - 1]|
            && From(cfg, l - 1, first) == From(cfg, l, j)
            && To(cfg, |es|, l - 1, first + count - 1) == To(cfg, |es|, l, j)
            && From(cfg, l - 1, first + k) < To(cfg, |es|, l - 1, first + k)
            && (k + 1 < count ==> To(cfg, |es|, l - 1, first + k) == From(cfg, l - 1, first + k + 1))
  {
    hide TreeStored, Span, DivCeil, From, To;
    var n, b, below := |es|, cfg.maxNodeChildren, levels[l - 1];
    var first, end := j * b, Min((j + 1) * b, |below|);
    LevelCount(image, es, cfg, levels, l - 1);
    ChunkBounds(|below|, b, j);
    SpanStep(cfg, l - 1, j);
    SpanStep(cfg, l - 1, j + 1);
    ChildSpansArithmetic(n, Span(cfg, l - 1), b, j, end, first + k);
    FromTo(cfg, n, l - 1, first);
    FromTo(cfg, n, l - 1, first + k);
    FromTo(cfg, n, l - 1, first + k + 1);
    FromTo(cfg, n, l - 1, end - 1);
    FromTo(cfg, n, l, j);
  }

  lemma FromTo(cfg: WriterConfig, n: nat, l: nat, j: nat)
    requires cfg.Allowed()
    ensures From(cfg, l, j) == j * Span(cfg, l) && To(cfg, n, l, j) == Min((j + 1) * Span(cfg, l), n)
  {
  }

  lemma ChildSpansArithmetic(n: nat, s: nat, b: nat, j: nat, end: nat, i: nat)
    requires s > 0 && b > 0 && j < DivCeil(DivCeil(n, s), b) && end == Min((j + 1) * b, DivCeil(n, s))
             && j * b <= i < end
    ensures Min(end * s, n) == Min((j + 1) * b * s, n)
    ensures i * s < Min((i + 1) * s, n)
    ensures i + 1 < end ==> Min((i + 1) * s, n) == (i + 1) * s
  {
    hide DivCeil;
    ChunkBounds(n, s, i);
    DivCeilBounds(n, s);
    Monotone(DivCeil(n, s), (j + 1) * b, s);
    Monotone(i + 1, DivCeil(n, s), s);
  }

  /** The height is the least h >= 1 with n <= B^h, and 0 for an empty file; the root level is a single node. */
  lemma Height(es: seq<Entry>, cfg: WriterConfig, globalStart: nat)
    requires cfg.Allowed()
    ensures var h := FooterOf(es, cfg, globalStart).treeHeight;
            && (h == 0 <==> es == [])
            && (h > 0 ==> |es| <= Pow(cfg.maxNodeChildren, h) && |Levels(es, cfg)[h - 1]| == 1)
            && (h > 1 ==> |es| > Pow(cfg.maxNodeChildren, h - 1))
  {
    hide PbtImage, LeafRegion, LeafHandles, TreeStored, Tower, LeavesStored, DivCeil, At, FooterImage, Chunks;
    var levels := Levels(es, cfg);
    var hs := LeafHandles(Groups(es, cfg), cfg);
    ImageStoresTree(es, cfg, globalStart);
    var image := PbtImage(es, cfg, globalStart);
    if es != [] {
      var h := |levels|;
      LevelCount(image, es, cfg, levels, 0);
      DivCeilBounds(|es|, Span(cfg, 0));
      LevelCount(image, es, cfg, levels, h - 1);
      DivCeilBounds(|es|, Span(cfg, h - 1));
      if h > 1 {
        TowerShrinks(hs, |LeafRegion(Groups(es, cfg))|, cfg, h - 2);
        LevelCount(image, es, cfg, levels, h - 2);
        DivCeilBounds(|es|, Span(cfg, h - 2));
      }
    }
  }

  lemma {:induction false} TowerShrinks(hs: seq<Handle>, base: nat, cfg: WriterConfig, l: nat)
    requires cfg.Allowed() && l + 1 < |Tower(hs, base, cfg)|
    ensures |Tower(hs, base, cfg)[l]| > 1
    decreases l
  {
    hide ParentRegion, ParentHandles, Chunks;
    if l > 0 {
      var groups := Chunks(hs, cfg.maxNodeChildren);
      TowerShrinks(ParentHandles(groups, base, cfg), base + |ParentRegion(groups)|, cfg, l - 1);
    }
  }

  /** Full nodes: every node but the last of its level has exactly B children. */
  lemma FullNodes(below: seq<Handle>, cfg: WriterConfig, j: nat)
    requires cfg.Allowed() && j < DivCeil(|below|, cfg.maxNodeChildren)
    ensures j + 1 < DivCeil(|below|, cfg.maxNodeChildren) ==>
            |Chunk(below, cfg.maxNodeChildren, j)| == cfg.maxNodeChildren
  {
    ChunkBounds(|below|, cfg.maxNodeChildren, j);
  }
}
