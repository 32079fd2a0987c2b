// How large a finished file can be, from the number and size of its entries and the size of reduced values.
module FileSizes {
  import opened Bytes
  import opened Entries
  import opened Grouping
  import opened Structures
  import opened Packing
  import opened PackedShape
  import opened StoredFile

  /** Bytes of all keys and values. */
  function DataBytes(es: seq<Entry>): nat {
    |EntryData(es)|
  }

  /** Nothing the reduction returns is longer than `limit`. */
  ghost predicate ReducesTo(cfg: WriterConfig, limit: nat) {
    forall values: seq<Bytes> :: |cfg.Reduce(values)| <= limit
  }

  /** Without a callback reduced values take no space. */
  lemma ReducesToNothing(cfg: WriterConfig)
    requires cfg.reduce.None?
    ensures ReducesTo(cfg, 0)
  {
  }

  // ---- Leaves.

  function Total(cs: seq<seq<Entry>>): nat {
    if cs == [] then 0 else Total(cs[..|cs| - 1]) + DataBytes(cs[|cs| - 1])
  }

  lemma {:induction false} LeafRegionSize(cs: seq<seq<Entry>>)
    ensures |LeafRegion(cs)| == 2 * |cs| + LEAF_RECORD * EntryCount(cs) + Total(cs)
  {
    hide LeafImage, DataBytes;
    if cs != [] {
      LeafRegionSize(cs[..|cs| - 1]);
      LeafImageSize(cs[|cs| - 1]);
    }
  }

  lemma LeafImageSize(c: seq<Entry>)
    ensures |LeafImage(c)| == 2 + LEAF_RECORD * |c| + DataBytes(c)
  {
    hide EntryData;
  }

  lemma {:induction false} DataConcat(a: seq<Entry>, b: seq<Entry>)
    ensures DataBytes(a + b) == DataBytes(a) + DataBytes(b)
  {
    if b == [] {
      assert a + b == a;
    } else {
      assert (a + b)[..|a + b| - 1] == a + b[..|b| - 1];
      DataConcat(a, b[..|b| - 1]);
    }
  }

  /** Cutting into groups loses nothing. */
  lemma {:induction false} TotalOfChunks(es: seq<Entry>, size: nat)
    requires size > 0
    ensures Total(Chunks(es, size)) == DataBytes(es) && EntryCount(Chunks(es, size)) == |es|
    decreases |es|
  {
    hide DataBytes, Chunks;
    NoData();
    if es == [] {
      NoChunks<Entry>(size);
    } else {
      var cut := LastCut(|es|, size);
      TotalOfChunks(es[..cut], size);
      DataConcat(es[..cut], es[cut..]);
      assert es[..cut] + es[cut..] == es;
      LastChunk(es, size);
    }
  }

  lemma NoChunks<T>(size: nat)
    requires size > 0
    ensures Chunks<T>([], size) == []
  {
  }

  lemma LastChunk<T>(s: seq<T>, size: nat)
    requires size > 0 && s != []
    ensures var cs, cut := Chunks(s, size), LastCut(|s|, size);
            cs != [] && cs[..|cs| - 1] == Chunks(s[..cut], size) && cs[|cs| - 1] == s[cut..]
  {
    var cs := Chunks(s[..LastCut(|s|, size)], size);
    assert (cs + [s[LastCut(|s|, size)..]])[..|cs|] == cs;
  }

  lemma NoData()
    ensures DataBytes([]) == 0
  {
  }

  // ---- Levels above.

  function Lefts(hs: seq<Handle>): nat {
    if hs == [] then 0 else Lefts(hs[..|hs| - 1]) + |hs[|hs| - 1].left|
  }

  function Rights(hs: seq<Handle>): nat {
    if hs == [] then 0 else Rights(hs[..|hs| - 1]) + |hs[|hs| - 1].right|
  }

  ghost predicate SmallReduced(hs: seq<Handle>, limit: nat) {
    forall i :: 0 <= i < |hs| ==> |hs[i].reduced| <= limit
  }

  lemma {:induction false} LeftsConcat(a: seq<Handle>, b: seq<Handle>)
    ensures Lefts(a + b) == Lefts(a) + Lefts(b) && Rights(a + b) == Rights(a) + Rights(b)
  {
    if b == [] {
      assert a + b == a;
    } else {
      assert (a + b)[..|a + b| - 1] == a + b[..|b| - 1];
      LeftsConcat(a, b[..|b| - 1]);
    }
  }

  lemma {:induction false} OuterKeys(hs: seq<Handle>)
    requires hs != []
    ensures |hs[0].left| <= Lefts(hs) && |hs[|hs| - 1].right| <= Rights(hs)
  {
    if |hs| > 1 {
      OuterKeys(hs[..|hs| - 1]);
    }
  }

  lemma {:induction false} ChildDataSize(hs: seq<Handle>, count: nat, limit: nat)
    requires 0 < |hs| && count <= |hs| && SmallReduced(hs, limit)
    ensures |ChildData(hs, count)| <= |hs[0].left| + Rights(hs[..count]) + count * limit
  {
    if count > 0 {
      ChildDataSize(hs, count - 1, limit);
      assert hs[..count][..count - 1] == hs[..count - 1];
      Distribute(count - 1, 1, limit);
    }
  }

  lemma NodeSize(hs: seq<Handle>, limit: nat)
    requires 0 < |hs| && SmallReduced(hs, limit)
    ensures |InternalImage(hs)| <= |hs| * (66 + limit) + Lefts(hs) + Rights(hs)
  {
    hide InternalImage, ChildData;
    ChildDataSize(hs, |hs|, limit);
    assert hs[..|hs|] == hs;
    OuterKeys(hs);
    NodeHeaderSize(hs);
    Distribute2(|hs|, 66, limit);
  }

  lemma NodeHeaderSize(hs: seq<Handle>)
    requires 0 < |hs|
    ensures |InternalImage(hs)| == 18 + 48 * |hs| + |ChildData(hs, |hs|)|
  {
    hide ChildData, ChildRecords;
  }

  lemma Distribute2(m: nat, a: nat, b: nat)
    ensures m * (a + b) == a * m + m * b
  {
  }

  /** One level of parents: its bytes, and what its handles carry up. */
  lemma {:induction false} ParentSizes(cs: seq<seq<Handle>>, base: nat, cfg: WriterConfig, limit: nat)
    requires NoneEmpty(cs) && ReducesTo(cfg, limit)
    requires forall i :: 0 <= i < |cs| ==> SmallReduced(cs[i], limit)
    ensures |ParentRegion(cs)| <= EntryCount(cs) * (66 + limit) + Lefts(Flatten(cs)) + Rights(Flatten(cs))
    ensures Lefts(ParentHandles(cs, base, cfg)) <= Lefts(Flatten(cs))
            && Rights(ParentHandles(cs, base, cfg)) <= Rights(Flatten(cs))
    ensures SmallReduced(ParentHandles(cs, base, cfg), limit)
  {
    hide InternalImage, SmallReduced, Lefts, Rights;
    if cs == [] {
      NoHandles(limit);
    } else {
      var front, last := cs[..|cs| - 1], cs[|cs| - 1];
      ParentSizes(front, base, cfg, limit);
      assert cs == front + [last];
      FlattenConcat(front, [last]);
      assert Flatten([last]) == last + Flatten<Handle>([]) == last;
      LeftsConcat(Flatten(front), last);
      NodeSize(last, limit);
      Distribute(EntryCount(front), |last|, 66 + limit);
      var h := ParentHandle(last, base + |ParentRegion(front)|, cfg);
      HandlePushed(ParentHandles(front, base, cfg), last, h, cfg, limit);
    }
  }

  lemma NoHandles(limit: nat)
    ensures Lefts([]) == 0 && Rights([]) == 0 && SmallReduced([], limit)
  {
  }

  lemma HandlePushed(hs: seq<Handle>, children: seq<Handle>, h: Handle, cfg: WriterConfig, limit: nat)
    requires children != [] && ReducesTo(cfg, limit) && SmallReduced(hs, limit)
    requires h.left == children[0].left && h.right == children[|children| - 1].right
             && h.reduced == cfg.Reduce(Reductions(children))
    ensures Lefts(hs + [h]) <= Lefts(hs) + Lefts(children) && Rights(hs + [h]) <= Rights(hs) + Rights(children)
    ensures SmallReduced(hs + [h], limit)
  {
    OuterKeys(children);
    assert (hs + [h])[..|hs|] == hs;
  }

  lemma {:induction false} SmallChunks(hs: seq<Handle>, size: nat, limit: nat)
    requires size > 0 && SmallReduced(hs, limit)
    ensures forall i :: 0 <= i < |Chunks(hs, size)| ==> SmallReduced(Chunks(hs, size)[i], limit)
    ensures EntryCount(Chunks(hs, size)) == |hs|
    decreases |hs|
  {
    hide Chunks;
    if hs == [] {
      NoChunks<Handle>(size);
    } else {
      SmallChunks(hs[..LastCut(|hs|, size)], size, limit);
      LastChunk(hs, size);
    }
  }

  /** Halving at least, level by level, d levels above `hs` are enough; together they have at most three times its
      nodes. */
  lemma {:induction false} TowerSize(hs: seq<Handle>, base: nat, cfg: WriterConfig, limit: nat, d: nat)
    requires cfg.Allowed() && ReducesTo(cfg, limit) && SmallReduced(hs, limit) && |hs| <= Pow(2, d)
    ensures |TowerRegion(hs, base, cfg)| <= 3 * |hs| * (66 + limit) + d * (Lefts(hs) + Rights(hs))
    decreases |hs|
  {
    hide ParentRegion, ParentHandles, Chunks, Lefts, Rights, SmallReduced, DivCeil, ReducesTo, Pow;
    if |hs| <= 1 {
      Monotone(0, 3 * |hs|, 66 + limit);
      Monotone(0, d, Lefts(hs) + Rights(hs));
    } else {
      var groups := Chunks(hs, cfg.maxNodeChildren);
      ChunksAt(hs, cfg.maxNodeChildren);
      DivCeilBounds(|hs|, cfg.maxNodeChildren);
      var up, next := ParentHandles(groups, base, cfg), base + |ParentRegion(groups)|;
      SmallChunks(hs, cfg.maxNodeChildren, limit);
      ChunksFlatten(hs, cfg.maxNodeChildren);
      ParentSizes(groups, base, cfg, limit);
      HalfOf(|hs|, cfg.maxNodeChildren, d);
      TowerSize(up, next, cfg, limit, d - 1);
      SumUp(|hs|, |up|, 66 + limit, d, Lefts(hs) + Rights(hs), Lefts(up) + Rights(up));
    }
  }

  lemma HalfOf(m: nat, size: nat, d: nat)
    requires size >= 2 && m > 1 && m <= Pow(2, d)
    ensures d > 0 && DivCeil(m, size) <= Pow(2, d - 1) && 3 * DivCeil(m, size) <= 2 * m
  {
    var g := DivCeil(m, size);
    DivCeilBounds(m, size);
    Monotone(2, size, g - 1);
    Distribute(g - 1, 1, size);
    Monotone(2, size, g);
    CeilHalf(m, size);
  }

  lemma CeilHalf(m: nat, size: nat)
    requires size >= 2 && m > 1
    ensures 2 * DivCeil(m, size) <= m + 1
  {
    var g := DivCeil(m, size);
    DivCeilBounds(m, size);
    // (g - 1) * size < m, so 2 * (g - 1) < m
    Distribute(g - 1, 1, size);
    Monotone(2, size, g - 1);
    assert (g - 1) * size == size * (g - 1);
  }

  lemma SumUp(m: nat, g: nat, w: nat, d: nat, keys: nat, keysUp: nat)
    requires 3 * g <= 2 * m && keysUp <= keys && d > 0
    ensures m * w + keys + (3 * g * w + (d - 1) * keysUp) <= 3 * m * w + d * keys
  {
    Monotone(3 * g, 2 * m, w);
    Distribute(m, 2 * m, w);
    Monotone2(d - 1, keysUp, keys);
    Distribute(d - 1, 1, keys);
  }

  lemma Monotone2(a: nat, b: nat, c: nat)
    requires b <= c
    ensures a * b <= a * c
  {
    Monotone(b, c, a);
  }

  // ---- The whole file.

  lemma {:induction false} EntryInData(es: seq<Entry>, i: nat)
    requires i < |es|
    ensures |es[i].key| <= DataBytes(es)
  {
    if i < |es| - 1 {
      EntryInData(es[..|es| - 1], i);
    }
  }

  lemma {:induction false} LeafHandleSizes(cs: seq<seq<Entry>>, cfg: WriterConfig, limit: nat)
    requires NoneEmpty(cs) && ReducesTo(cfg, limit)
    ensures Lefts(LeafHandles(cs, cfg)) <= Total(cs) && Rights(LeafHandles(cs, cfg)) <= Total(cs)
    ensures SmallReduced(LeafHandles(cs, cfg), limit)
  {
    hide LeafRegion, EntryCount, LeafImage, DataBytes;
    if cs != [] {
      var front, last := cs[..|cs| - 1], cs[|cs| - 1];
      LeafHandleSizes(front, cfg, limit);
      EntryInData(last, 0);
      EntryInData(last, |last| - 1);
      var hs, h := LeafHandles(front, cfg), LeafHandle(last, EntryCount(front), |LeafRegion(front)|, cfg);
      assert (hs + [h])[..|hs|] == hs;
    }
  }

  /** Upper bound for a file of `count` entries with `bytes` bytes of keys and values. */
  function SizeBound(count: nat, bytes: nat, limit: nat): nat {
    FOOTER_SIZE + count * (224 + 3 * limit) + 129 * bytes
  }

  /** Every finished file stays within the bound, whatever its fan-out. */
  lemma ImageSize(es: seq<Entry>, cfg: WriterConfig, globalStart: nat, limit: nat)
    requires cfg.Allowed() && ReducesTo(cfg, limit) && |es| < U64_LIMIT
    ensures |PbtImage(es, cfg, globalStart)| <= SizeBound(|es|, DataBytes(es), limit)
  {
    hide LeafRegion, LeafHandles, TowerRegion, Chunks, FooterOf, FooterImage, ReducesTo, Total, EntryCount;
    hide SmallReduced, Lefts, Rights, DataBytes, Pow;
    hide DivCeil;
    var cs := Groups(es, cfg);
    var hs := LeafHandles(cs, cfg);
    TotalOfChunks(es, cfg.maxNodeChildren);
    ChunksAt(es, cfg.maxNodeChildren);
    DivCeilBounds(|es|, cfg.maxNodeChildren);
    LeafRegionSize(cs);
    LeafHandleSizes(cs, cfg, limit);
    PowAtLeast(2, 8);
    Limits();
    TowerSize(hs, |LeafRegion(cs)|, cfg, limit, 64);
    FooterLength(FooterOf(es, cfg, globalStart));
    Monotone(3 * |hs|, 3 * |es|, 66 + limit);
    BoundArithmetic(|es|, limit);
  }

  lemma FooterLength(f: Footer)
    ensures |FooterImage(f)| == FOOTER_SIZE
  {
  }

  lemma BoundArithmetic(n: nat, limit: nat)
    ensures 26 * n + 3 * n * (66 + limit) == n * (224 + 3 * limit)
  {
  }

  /** Below 2^64 the bound makes every size and position of the file fit its field. */
  lemma FitsBySize(es: seq<Entry>, cfg: WriterConfig, globalStart: nat, limit: nat)
    requires cfg.Allowed() && ReducesTo(cfg, limit)
    requires SizeBound(|es|, DataBytes(es), limit) < U64_LIMIT && globalStart + |es| < U64_LIMIT
    ensures Fits(es, cfg, globalStart)
  {
    hide PbtImage, DataBytes, ReducesTo;
    ImageSize(es, cfg, globalStart, limit);
  }
}
