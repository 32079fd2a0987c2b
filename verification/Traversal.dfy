// Traversal with pruning: subtrees whose reduced value fails the predicate are skipped.
module Traversal {
  import opened Bytes
  import opened Entries
  import opened Grouping
  import opened Structures
  import opened Packing
  import opened PackedShape
  import opened PbtIteration
  import opened StoredFile
  import TreeSearch
  import opened Reading

  /** The values that satisfy the predicate, in order. */
  function Select(vs: seq<Bytes>, p: Bytes -> bool): seq<Bytes> {
    if vs == [] then [] else (if p(vs[0]) then [vs[0]] else []) + Select(vs[1..], p)
  }

  lemma {:induction false} SelectConcat(xs: seq<Bytes>, ys: seq<Bytes>, p: Bytes -> bool)
    ensures Select(xs + ys, p) == Select(xs, p) + Select(ys, p)
  {
    if xs == [] {
      assert xs + ys == ys;
    } else {
      assert (xs + ys)[1..] == xs[1..] + ys;
      SelectConcat(xs[1..], ys, p);
    }
  }

  lemma {:induction false} SelectNone(vs: seq<Bytes>, p: Bytes -> bool)
    requires forall i :: 0 <= i < |vs| ==> !p(vs[i])
    ensures Select(vs, p) == []
  {
    if vs != [] {
      SelectNone(vs[1..], p);
    }
  }

  /** If the predicate holds for some value it also holds for whatever that value was reduced into. */
  ghost predicate Covers(cfg: WriterConfig, p: Bytes -> bool) {
    forall vs: seq<Bytes>, i :: 0 <= i < |vs| && p(vs[i]) ==> p(cfg.Reduce(vs))
  }

  /** The values of entries from..to that satisfy the predicate. */
  function SelectRange(es: seq<Entry>, from: nat, to: nat, p: Bytes -> bool): seq<Bytes> {
    if from <= to <= |es| then Select(Values(es[from..to]), p) else []
  }

  lemma SelectRangeJoin(es: seq<Entry>, from: nat, mid: nat, to: nat, p: Bytes -> bool)
    requires from <= mid <= to <= |es|
    ensures SelectRange(es, from, to, p) == SelectRange(es, from, mid, p) + SelectRange(es, mid, to, p)
  {
    assert Values(es[from..to]) == Values(es[from..mid]) + Values(es[mid..to]);
    SelectConcat(Values(es[from..mid]), Values(es[mid..to]), p);
  }

  /** What the traversal of node (l, j) collects, for any predicate: children that fail on their reduced value are
      skipped. */
  ghost function Pruned(es: seq<Entry>, cfg: WriterConfig, levels: seq<seq<Handle>>, l: nat, j: nat,
          p: Bytes -> bool): seq<Bytes>
    requires cfg.Allowed()
    decreases l, 1, 0
  {
    if l == 0 then SelectRange(es, From(cfg, 0, j), To(cfg, |es|, 0, j), p)
    else PrunedChildren(es, cfg, levels, l, j, ChildCount(cfg, levels, l, j), p)
  }

  ghost function ChildCount(cfg: WriterConfig, levels: seq<seq<Handle>>, l: nat, j: nat): nat
    requires cfg.Allowed()
  {
    if 1 <= l < |levels| && j < DivCeil(|levels[l - 1]|, cfg.maxNodeChildren)
    then |Chunk(levels[l - 1], cfg.maxNodeChildren, j)| else 0
  }

  /** The contribution of the first `count` children. */
  ghost function PrunedChildren(es: seq<Entry>, cfg: WriterConfig, levels: seq<seq<Handle>>, l: nat, j: nat,
          count: nat, p: Bytes -> bool): seq<Bytes>
    requires cfg.Allowed() && l > 0
    decreases l, 0, count
  {
    if count == 0 then [] else
      var c := Child(cfg, j, count - 1);
      PrunedChildren(es, cfg, levels, l, j, count - 1, p)
      + (if l <= |levels| && c < |levels[l - 1]| && p(levels[l - 1][c].reduced)
          then Pruned(es, cfg, levels, l - 1, c, p) else [])
  }

  lemma LeafCovers(image: Bytes, es: seq<Entry>, cfg: WriterConfig, levels: seq<seq<Handle>>, j: nat, i: nat,
          p: Bytes -> bool)
    requires cfg.Allowed() && TreeStored(image, es, cfg, levels) && j < |levels[0]| && Covers(cfg, p)
    requires From(cfg, 0, j) <= i < To(cfg, |es|, 0, j) <= |es| && p(es[i].value)
    ensures p(levels[0][j].reduced)
  {
    hide From, To, LeafImage, At, TreeStored, DivCeil, Chunk;
    StoredLeaf(image, es, cfg, levels, j);
    var c := Chunk(es, cfg.maxNodeChildren, j);
    assert c[i - From(cfg, 0, j)] == es[i];
    assert p(Values(c)[i - From(cfg, 0, j)]);
  }

  /** The ranges of the children of node (l, j), in terms of child numbers. */
  lemma ChildFacts(image: Bytes, es: seq<Entry>, cfg: WriterConfig, globalStart: nat, l: nat, j: nat, k: nat)
    requires IsFile(image, es, cfg, globalStart)
    requires 1 <= l < |Levels(es, cfg)| && j < |Levels(es, cfg)[l]| && k < ChildCount(cfg, Levels(es, cfg), l, j)
    ensures var count := ChildCount(cfg, Levels(es, cfg), l, j);
            && Child(cfg, j, k) < |Levels(es, cfg)[l - 1]|
            && From(cfg, l - 1, Child(cfg, j, 0)) == From(cfg, l, j)
            && To(cfg, |es|, l - 1, Child(cfg, j, count - 1)) == To(cfg, |es|, l, j)
            && From(cfg, l, j) <= From(cfg, l - 1, Child(cfg, j, k)) < To(cfg, |es|, l - 1, Child(cfg, j, k)) <= |es|
            && (k > 0 ==> To(cfg, |es|, l - 1, Child(cfg, j, k - 1)) == From(cfg, l - 1, Child(cfg, j, k)))
  {
    hide PbtImage, Levels, From, To, Fits, TreeStored, LeavesReadable, Chunk;
    var levels: seq<seq<Handle>> := Levels(es, cfg);
    FileStores(image, es, cfg, globalStart);
    StoredNode(image, es, cfg, levels, l, j);
    ChildSpans(image, es, cfg, levels, l, j, k);
    if k > 0 {
      ChildSpans(image, es, cfg, levels, l, j, k - 1);
    }
    NodeSpan(image, es, cfg, levels, l - 1, Child(cfg, j, k));
    SpanOrder(cfg, |es|, l - 1, Child(cfg, j, 0), Child(cfg, j, k));
  }

  lemma NodeCovers(image: Bytes, es: seq<Entry>, cfg: WriterConfig, globalStart: nat, l: nat, j: nat, k: nat,
          p: Bytes -> bool)
    requires IsFile(image, es, cfg, globalStart) && Covers(cfg, p)
    requires 1 <= l < |Levels(es, cfg)| && j < |Levels(es, cfg)[l]| && k < ChildCount(cfg, Levels(es, cfg), l, j)
    requires Child(cfg, j, k) < |Levels(es, cfg)[l - 1]| && p(Levels(es, cfg)[l - 1][Child(cfg, j, k)].reduced)
    ensures p(Levels(es, cfg)[l][j].reduced)
  {
    hide PbtImage, Levels, Fits, InternalImage, At, TreeStored, LeavesReadable, DivCeil, Chunk, NodeStored, Covers;
    hide Reductions;
    var levels: seq<seq<Handle>> := Levels(es, cfg);
    FileStores(image, es, cfg, globalStart);
    StoredNode(image, es, cfg, levels, l, j);
    var c := Chunk(levels[l - 1], cfg.maxNodeChildren, j);
    ReducedInSlice(levels[l - 1], j * cfg.maxNodeChildren, c, k);
    CoversOne(cfg, p, Reductions(c), k);
  }

  lemma ReducedInSlice(below: seq<Handle>, first: nat, c: seq<Handle>, k: nat)
    requires k < |c| && first + |c| <= |below| && c == below[first..first + |c|]
    ensures k < |Reductions(c)| && Reductions(c)[k] == below[first + k].reduced
  {
  }

  lemma CoversOne(cfg: WriterConfig, p: Bytes -> bool, vs: seq<Bytes>, k: nat)
    requires Covers(cfg, p) && k < |vs| && p(vs[k])
    ensures p(cfg.Reduce(vs))
  {
  }

  /** Some child of a node covers each entry the node covers. */
  lemma {:induction false} ChildHolding(image: Bytes, es: seq<Entry>, cfg: WriterConfig, globalStart: nat, l: nat,
          j: nat, i: nat, at: nat)
    returns (k: nat)
    requires IsFile(image, es, cfg, globalStart)
    requires 1 <= l < |Levels(es, cfg)| && j < |Levels(es, cfg)[l]| && at < ChildCount(cfg, Levels(es, cfg), l, j)
    requires From(cfg, l, j) <= i < To(cfg, |es|, l, j) && (at == 0 || From(cfg, l - 1, Child(cfg, j, at)) <= i)
    ensures k < ChildCount(cfg, Levels(es, cfg), l, j)
    ensures From(cfg, l - 1, Child(cfg, j, k)) <= i < To(cfg, |es|, l - 1, Child(cfg, j, k))
    decreases ChildCount(cfg, Levels(es, cfg), l, j) - at
  {
    hide PbtImage, Levels, Fits, From, To, ChildCount, Child;
    ChildFacts(image, es, cfg, globalStart, l, j, at);
    if i < To(cfg, |es|, l - 1, Child(cfg, j, at)) {
      k := at;
    } else {
      ChildFacts(image, es, cfg, globalStart, l, j, at + 1);
      k := ChildHolding(image, es, cfg, globalStart, l, j, i, at + 1);
    }
  }

  /** A selected value anywhere below a node makes the predicate hold on every reduced value on the way up. */
  lemma {:induction false} ReducedCovers(image: Bytes, es: seq<Entry>, cfg: WriterConfig, globalStart: nat, l: nat,
          j: nat, i: nat, p: Bytes -> bool)
    requires IsFile(image, es, cfg, globalStart) && Covers(cfg, p)
    requires l < |Levels(es, cfg)| && j < |Levels(es, cfg)[l]|
    requires From(cfg, l, j) <= i < To(cfg, |es|, l, j) <= |es| && p(es[i].value)
    ensures p(Levels(es, cfg)[l][j].reduced)
    decreases l
  {
    hide PbtImage, Levels, Fits, From, To, ChildCount, Child, Covers, TreeStored, LeavesReadable;
    FileStores(image, es, cfg, globalStart);
    if l == 0 {
      LeafCovers(image, es, cfg, Levels(es, cfg), j, i, p);
    } else {
      SomeChild(image, es, cfg, globalStart, l, j);
      var k := ChildHolding(image, es, cfg, globalStart, l, j, i, 0);
      ChildFacts(image, es, cfg, globalStart, l, j, k);
      ReducedCovers(image, es, cfg, globalStart, l - 1, Child(cfg, j, k), i, p);
      NodeCovers(image, es, cfg, globalStart, l, j, k, p);
    }
  }

  lemma SomeChild(image: Bytes, es: seq<Entry>, cfg: WriterConfig, globalStart: nat, l: nat, j: nat)
    requires IsFile(image, es, cfg, globalStart)
    requires 1 <= l < |Levels(es, cfg)| && j < |Levels(es, cfg)[l]|
    ensures 0 < ChildCount(cfg, Levels(es, cfg), l, j)
  {
    hide PbtImage, Levels, Fits, TreeStored, LeavesReadable;
    FileStores(image, es, cfg, globalStart);
    StoredNode(image, es, cfg, Levels(es, cfg), l, j);
  }

  /** With a covering predicate, pruning loses nothing: the traversal is the filter. */
  lemma {:induction false} PrunedIsSelect(image: Bytes, es: seq<Entry>, cfg: WriterConfig, globalStart: nat, l: nat,
          j: nat, p: Bytes -> bool)
    requires IsFile(image, es, cfg, globalStart) && Covers(cfg, p)
    requires l < |Levels(es, cfg)| && j < |Levels(es, cfg)[l]|
    ensures Pruned(es, cfg, Levels(es, cfg), l, j, p) == SelectRange(es, From(cfg, l, j), To(cfg, |es|, l, j), p)
    decreases l, 1, 0
  {
    hide PbtImage, Levels, From, To, Fits, TreeStored, LeavesReadable, DivCeil, Chunk, Covers, SelectRange;
    hide PrunedChildren;
    if l > 0 {
      SomeChild(image, es, cfg, globalStart, l, j);
      PrunedChildrenSelect(image, es, cfg, globalStart, l, j, ChildCount(cfg, Levels(es, cfg), l, j), p);
    }
  }

  lemma {:induction false} PrunedChildrenSelect(image: Bytes, es: seq<Entry>, cfg: WriterConfig, globalStart: nat,
          l: nat, j: nat, count: nat, p: Bytes -> bool)
    requires IsFile(image, es, cfg, globalStart) && Covers(cfg, p)
    requires 1 <= l < |Levels(es, cfg)| && j < |Levels(es, cfg)[l]|
    requires 0 < count <= ChildCount(cfg, Levels(es, cfg), l, j)
    ensures Child(cfg, j, count - 1) < |Levels(es, cfg)[l - 1]|
    ensures PrunedChildren(es, cfg, Levels(es, cfg), l, j, count, p)
         == SelectRange(es, From(cfg, l, j), To(cfg, |es|, l - 1, Child(cfg, j, count - 1)), p)
    ensures count == ChildCount(cfg, Levels(es, cfg), l, j) ==>
              To(cfg, |es|, l - 1, Child(cfg, j, count - 1)) == To(cfg, |es|, l, j)
    decreases l, 0, count
  {
    hide PbtImage, Levels, From, To, Fits, TreeStored, LeavesReadable, ChildCount, Covers, SelectRange, Pruned, Child;
    var levels: seq<seq<Handle>> := Levels(es, cfg);
    ChildFacts(image, es, cfg, globalStart, l, j, count - 1);
    var c := Child(cfg, j, count - 1);
    PrunedChild(image, es, cfg, globalStart, l - 1, c, p);
    if count > 1 {
      PrunedChildrenSelect(image, es, cfg, globalStart, l, j, count - 1, p);
      SelectRangeJoin(es, From(cfg, l, j), From(cfg, l - 1, c), To(cfg, |es|, l - 1, c), p);
    } else {
      assert PrunedChildren(es, cfg, levels, l, j, 0, p) == [];
    }
  }

  lemma SpanOrder(cfg: WriterConfig, n: nat, l: nat, a: nat, b: nat)
    requires cfg.Allowed() && a <= b
    ensures From(cfg, l, a) <= From(cfg, l, b)
  {
    Monotone(a, b, Span(cfg, l));
  }

  lemma {:induction false} PrunedChild(image: Bytes, es: seq<Entry>, cfg: WriterConfig, globalStart: nat, l: nat,
          c: nat, p: Bytes -> bool)
    requires IsFile(image, es, cfg, globalStart) && Covers(cfg, p)
    requires l < |Levels(es, cfg)| && c < |Levels(es, cfg)[l]|
    ensures (if p(Levels(es, cfg)[l][c].reduced) then Pruned(es, cfg, Levels(es, cfg), l, c, p) else [])
         == SelectRange(es, From(cfg, l, c), To(cfg, |es|, l, c), p)
    decreases l, 2, 0
  {
    hide PbtImage, Levels, From, To, Fits, TreeStored, LeavesReadable, Covers, Pruned;
    FileStores(image, es, cfg, globalStart);
    NodeSpan(image, es, cfg, Levels(es, cfg), l, c);
    if p(Levels(es, cfg)[l][c].reduced) {
      PrunedIsSelect(image, es, cfg, globalStart, l, c, p);
    } else {
      var from, to := From(cfg, l, c), To(cfg, |es|, l, c);
      forall i | 0 <= i < to - from ensures !p(Values(es[from..to])[i]) {
        if p(es[from + i].value) {
          ReducedCovers(image, es, cfg, globalStart, l, c, from + i, p);
        }
      }
      SelectNone(Values(es[from..to]), p);
    }
  }

  // ---- What fails below a node.

  /** If the predicate fails for all values it also fails for what they are reduced into. */
  ghost predicate Spares(cfg: WriterConfig, p: Bytes -> bool) {
    forall vs: seq<Bytes> :: vs != [] && NoneHolds(vs, p) ==> !p(cfg.Reduce(vs))
  }

  ghost predicate NoneHolds(vs: seq<Bytes>, p: Bytes -> bool) {
    forall i :: 0 <= i < |vs| ==> !p(vs[i])
  }

  lemma SparesOne(cfg: WriterConfig, p: Bytes -> bool, vs: seq<Bytes>)
    requires Spares(cfg, p) && vs != [] && NoneHolds(vs, p)
    ensures !p(cfg.Reduce(vs))
  {
  }

  /** What fails on every value below a node fails on its reduced value. */
  lemma {:induction false} ReducedSpares(image: Bytes, es: seq<Entry>, cfg: WriterConfig, globalStart: nat, l: nat,
          j: nat, p: Bytes -> bool)
    requires IsFile(image, es, cfg, globalStart) && Spares(cfg, p)
    requires l < |Levels(es, cfg)| && j < |Levels(es, cfg)[l]|
    requires forall i :: From(cfg, l, j) <= i < To(cfg, |es|, l, j) && i < |es| ==> !p(es[i].value)
    ensures !p(Levels(es, cfg)[l][j].reduced)
    decreases l
  {
    hide PbtImage, Levels, Fits, From, To, Spares, TreeStored, LeavesReadable, LeafImage, InternalImage, At, DivCeil;
    hide Reductions, Chunk, NodeStored;
    var levels: seq<seq<Handle>> := Levels(es, cfg);
    FileStores(image, es, cfg, globalStart);
    if l == 0 {
      StoredLeaf(image, es, cfg, levels, j);
      SparesOne(cfg, p, Values(Chunk(es, cfg.maxNodeChildren, j)));
    } else {
      StoredNode(image, es, cfg, levels, l, j);
      var c := Chunk(levels[l - 1], cfg.maxNodeChildren, j);
      forall k | 0 <= k < |Reductions(c)| ensures !p(Reductions(c)[k]) {
        ReductionsCount(c);
        ReducedInSlice(levels[l - 1], j * cfg.maxNodeChildren, c, k);
        ChildWithin(image, es, cfg, globalStart, l, j, k);
        ReducedSpares(image, es, cfg, globalStart, l - 1, Child(cfg, j, k), p);
      }
      ReductionsCount(c);
      SparesOne(cfg, p, Reductions(c));
    }
  }

  lemma ReductionsCount(hs: seq<Handle>)
    ensures |Reductions(hs)| == |hs|
  {
  }

  /** A child lies inside the range of its node. */
  lemma ChildWithin(image: Bytes, es: seq<Entry>, cfg: WriterConfig, globalStart: nat, l: nat, j: nat, k: nat)
    requires IsFile(image, es, cfg, globalStart)
    requires 1 <= l < |Levels(es, cfg)| && j < |Levels(es, cfg)[l]| && k < ChildCount(cfg, Levels(es, cfg), l, j)
    ensures Child(cfg, j, k) < |Levels(es, cfg)[l - 1]|
    ensures From(cfg, l, j) <= From(cfg, l - 1, Child(cfg, j, k))
    ensures To(cfg, |es|, l - 1, Child(cfg, j, k)) <= To(cfg, |es|, l, j) <= |es|
  {
    hide PbtImage, Levels, Fits, From, ChildCount;
    var count := ChildCount(cfg, Levels(es, cfg), l, j);
    ChildFacts(image, es, cfg, globalStart, l, j, k);
    Monotone(Child(cfg, j, k) + 1, Child(cfg, j, count - 1) + 1, Span(cfg, l - 1));
  }

  // ---- Without a callback.

  /** Without a callback every child has the empty string as its reduced value, and is skipped if that fails. */
  lemma {:induction false} UnreducedSkipped(image: Bytes, es: seq<Entry>, cfg: WriterConfig, globalStart: nat, l: nat,
          j: nat, count: nat, p: Bytes -> bool)
    requires IsFile(image, es, cfg, globalStart) && cfg.reduce.None? && !p([]) && 1 <= l < |Levels(es, cfg)|
    ensures PrunedChildren(es, cfg, Levels(es, cfg), l, j, count, p) == []
    decreases count
  {
    hide PbtImage, Fits, Levels, Pruned, Child;
    if count > 0 {
      UnreducedSkipped(image, es, cfg, globalStart, l, j, count - 1, p);
      if Child(cfg, j, count - 1) < |Levels(es, cfg)[l - 1]| {
        HandleUnreduced(image, es, cfg, globalStart, l - 1, Child(cfg, j, count - 1));
      }
    }
  }

  /** What a traversal collects from a file written without a callback: all satisfying values if the empty string
      satisfies the predicate or the file is a single leaf, nothing otherwise. */
  lemma UnreducedCollects(image: Bytes, es: seq<Entry>, cfg: WriterConfig, globalStart: nat, p: Bytes -> bool)
    requires IsFile(image, es, cfg, globalStart) && cfg.reduce.None? && es != []
    ensures Pruned(es, cfg, Levels(es, cfg), |Levels(es, cfg)| - 1, 0, p)
         == if p([]) || |es| <= cfg.maxNodeChildren then Select(Values(es), p) else []
  {
    hide PbtImage, Levels, FooterOf, Fits, From, To, PrunedChildren;
    var top := |Levels(es, cfg)| - 1;
    RootCovers(image, es, cfg, globalStart);
    assert es[0..|es|] == es;
    TreeSearch.OneLeaf(es, cfg);
    if p([]) {
      PrunedIsSelect(image, es, cfg, globalStart, top, 0, p);
    } else if |es| > cfg.maxNodeChildren {
      UnreducedSkipped(image, es, cfg, globalStart, top, 0, ChildCount(cfg, Levels(es, cfg), top, 0), p);
    }
  }

  /** The root covers all entries. */
  lemma RootCovers(image: Bytes, es: seq<Entry>, cfg: WriterConfig, globalStart: nat)
    requires IsFile(image, es, cfg, globalStart) && es != []
    ensures var top := |Levels(es, cfg)| - 1;
            |Levels(es, cfg)[top]| == 1 && From(cfg, top, 0) == 0 && To(cfg, |es|, top, 0) == |es|
  {
    hide Levels, PbtImage, FooterOf, Fits;
    RootHandle(image, es, cfg, globalStart);
    TreeSearch.RootRange(es, cfg);
  }

  /** Recursive visit of the node at `offset`; the accumulator is threaded through. */
  method Visit(reader: Reader, p: Bytes -> bool, acc: seq<Bytes>, offset: nat, height: nat,
               ghost es: seq<Entry>, ghost cfg: WriterConfig, ghost globalStart: nat, ghost j: nat)
    returns (out: seq<Bytes>)
    requires reader.Holds(es, cfg, globalStart)
    requires 1 <= height <= |Levels(es, cfg)| && j < |Levels(es, cfg)[height - 1]|
             && offset == Levels(es, cfg)[height - 1][j].offset
    ensures out == acc + Pruned(es, cfg, Levels(es, cfg), height - 1, j, p)
    decreases height
  {
    hide PbtImage, Levels, FooterOf, Fits, InternalCount, ChildOffset, ReducedValue, ChildCount, Child, Pruned;
    hide PrunedChildren;
    if height >= 2 {
      var count := InternalCount(reader.storage, offset);
      CountIs(reader, es, cfg, globalStart, height - 1, j, p);
      out := acc;
      for i := 0 to count
        invariant out == acc + PrunedChildren(es, cfg, Levels(es, cfg), height - 1, j, i, p)
      {
        VisitStep(reader, es, cfg, globalStart, height - 1, j, i, p);
        if p(ReducedValue(reader.storage, offset, i)) {
          out := Visit(reader, p, out, ChildOffset(reader.storage, offset, i), height - 1, es, cfg, globalStart,
              Child(cfg, j, i));
        }
      }
    } else {
      out := VisitLeaf(reader, p, acc, offset, es, cfg, globalStart, j);
    }
  }

  /** One round of the loop over the children of node (l, j). */
  lemma VisitStep(reader: Reader, es: seq<Entry>, cfg: WriterConfig, globalStart: nat, l: nat, j: nat, i: nat,
          p: Bytes -> bool)
    requires reader.Holds(es, cfg, globalStart)
    requires 1 <= l < |Levels(es, cfg)| && j < |Levels(es, cfg)[l]|
    requires i < InternalCount(reader.storage, Levels(es, cfg)[l][j].offset)
    ensures var node, levels := Levels(es, cfg)[l][j].offset, Levels(es, cfg);
            && Child(cfg, j, i) < |levels[l - 1]|
            && ChildOffset(reader.storage, node, i) == levels[l - 1][Child(cfg, j, i)].offset
            && PrunedChildren(es, cfg, levels, l, j, i + 1, p)
               == PrunedChildren(es, cfg, levels, l, j, i, p)
                  + (if p(ReducedValue(reader.storage, node, i))
                      then Pruned(es, cfg, levels, l - 1, Child(cfg, j, i), p) else [])
  {
    hide PbtImage, Levels, FooterOf, Fits, From, To, Pruned, LeftKey, RightKey, ReducedValue, ChildEntryStart;
    hide ChildOffset;
    hide InternalCount;
    NodeReads(reader.storage, es, cfg, globalStart, l, j, i);
    ChildInside(cfg, j, i, InternalCount(reader.storage, Levels(es, cfg)[l][j].offset));
  }

  // The leaf case of the visit.
  method VisitLeaf(reader: Reader, p: Bytes -> bool, acc: seq<Bytes>, offset: nat,
                   ghost es: seq<Entry>, ghost cfg: WriterConfig, ghost globalStart: nat, ghost j: nat)
    returns (out: seq<Bytes>)
    requires reader.Holds(es, cfg, globalStart)
    requires j < |Levels(es, cfg)[0]| && offset == Levels(es, cfg)[0][j].offset
    ensures out == acc + Pruned(es, cfg, Levels(es, cfg), 0, j, p)
  {
    hide PbtImage, Levels, From, To, Fits, FooterOf, LeafCount, LeafValue, LeafKey, SelectRange;
    reader.LeafFacts(es, cfg, globalStart, j);
    ghost var from := From(cfg, 0, j);
    var count := LeafCount(reader.storage, offset);
    out := acc;
    SelectRangeEmpty(es, from, p);
    for i := 0 to count
      invariant out == acc + SelectRange(es, from, from + i, p)
    {
      var value := LeafValue(reader.storage, offset, i);
      SelectRangeNext(es, from, from + i, p);
      if p(value) {
        out := out + [value];
      }
    }
  }

  lemma SelectRangeEmpty(es: seq<Entry>, from: nat, p: Bytes -> bool)
    requires from <= |es|
    ensures SelectRange(es, from, from, p) == []
  {
  }

  lemma SelectRangeNext(es: seq<Entry>, from: nat, to: nat, p: Bytes -> bool)
    requires from <= to < |es|
    ensures SelectRange(es, from, to + 1, p) ==
            SelectRange(es, from, to, p) + (if p(es[to].value) then [es[to].value] else [])
  {
    SelectRangeJoin(es, from, to, to + 1, p);
    assert Values(es[to..to + 1]) == [es[to].value];
    assert Select([es[to].value], p) == (if p(es[to].value) then [es[to].value] else []) + Select([], p);
  }

  lemma {:induction false} CountIs(reader: Reader, es: seq<Entry>, cfg: WriterConfig, globalStart: nat, l: nat, j: nat,
          p: Bytes -> bool)
    requires reader.Holds(es, cfg, globalStart)
    requires 1 <= l < |Levels(es, cfg)| && j < |Levels(es, cfg)[l]|
    ensures var count := InternalCount(reader.storage, Levels(es, cfg)[l][j].offset);
            && count == ChildCount(cfg, Levels(es, cfg), l, j)
            && PrunedChildren(es, cfg, Levels(es, cfg), l, j, count, p) == Pruned(es, cfg, Levels(es, cfg), l, j, p)
            && PrunedChildren(es, cfg, Levels(es, cfg), l, j, 0, p) == []
  {
    hide PbtImage, Levels, Fits, TreeStored, LeavesReadable, DivCeil, FooterOf, At, InternalImage, HandleFits;
    hide InternalCount;
    hide LeftKey, RightKey, ReducedValue, ChildEntryStart, ChildOffset, ChildSize, Chunk;
    var levels: seq<seq<Handle>> := Levels(es, cfg);
    FileStores(reader.storage, es, cfg, globalStart);
    StoredNode(reader.storage, es, cfg, levels, l, j);
    var c := Chunk(levels[l - 1], cfg.maxNodeChildren, j);
    NodeAddressable(reader.storage, levels[l][j].offset, c);
    HandlesFit(reader.storage, es, cfg, globalStart, l - 1, j * cfg.maxNodeChildren);
    FileSmall(reader.storage, es, cfg, globalStart);
    InternalReads(reader.storage, levels[l][j].offset, c, 0);
  }

  lemma FileSmall(image: Bytes, es: seq<Entry>, cfg: WriterConfig, globalStart: nat)
    requires IsFile(image, es, cfg, globalStart)
    ensures |image| < U64_LIMIT
  {
  }

  lemma ChildInside(cfg: WriterConfig, j: nat, i: nat, count: nat)
    requires i < count
    ensures Child(cfg, j, i) < Child(cfg, j, count)
  {
  }

  /** Appends to the accumulator what a traversal from the root collects. */
  method Traverse(reader: Reader, p: Bytes -> bool, acc: seq<Bytes>,
                  ghost es: seq<Entry>, ghost cfg: WriterConfig, ghost globalStart: nat)
    returns (out: seq<Bytes>)
    requires reader.Holds(es, cfg, globalStart)
    ensures cfg.Allowed() && (es == [] ==> out == acc)
    ensures es != [] ==> out == acc + Pruned(es, cfg, Levels(es, cfg), |Levels(es, cfg)| - 1, 0, p)
    ensures Covers(cfg, p) ==> out == acc + Select(Values(es), p)
    ensures cfg.reduce.None? ==>
              out == acc + if p([]) || |es| <= cfg.maxNodeChildren then Select(Values(es), p) else []
  {
    hide PbtImage, Levels, FooterOf, TreeStored, Pruned, From, To, Covers, LeavesReadable;
    reader.HeightZero(es, cfg, globalStart);
    out := acc;
    if reader.footer.treeHeight == 0 {
      assert Select(Values([]), p) == [];
      return;
    }
    reader.AtRoot([], es, cfg, globalStart);
    out := Visit(reader, p, acc, reader.footer.rootOffset, reader.footer.treeHeight, es, cfg, globalStart, 0);
    if Covers(cfg, p) {
      PrunedIsSelect(reader.storage, es, cfg, globalStart, reader.footer.treeHeight - 1, 0, p);
      assert es[0..|es|] == es;
    }
    if cfg.reduce.None? {
      UnreducedCollects(reader.storage, es, cfg, globalStart, p);
    }
  }
}
