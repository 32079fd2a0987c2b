// The bulk loader: entries in key order become leaves, then level after level of internal nodes, then the footer.
// The storage grows by whole nodes; every method says which nodes are in it and where the next one goes.
module Writing {
  import opened Bytes
  import opened Entries
  import opened Grouping
  import opened Structures
  import opened Packing
  import opened PackedShape
  import opened PbtIteration
  import opened StoredFile
  import opened Reading
  import opened Merging
  import opened DbIteration

  // ---- Storage: a byte array that grows by doubling and is overwritten in place.

  function Grown(storage: Bytes, size: nat): (r: Bytes)
    ensures size <= |r| && storage <= r
  {
    if |storage| >= size then storage else
      var newSize := if size >= 2 * |storage| then size else 2 * |storage|;
      storage + seq(newSize - |storage|, i => 0)
  }

  function Overwritten(storage: Bytes, offset: nat, data: Bytes): Bytes
    requires offset + |data| <= |storage|
  {
    storage[..offset] + data + storage[offset + |data|..]
  }

  /** Writing at the end of a prefix extends the prefix and leaves it alone. */
  lemma WriteExtends(storage: Bytes, prefix: Bytes, data: Bytes)
    requires At(storage, 0, prefix)
    ensures At(Overwritten(Grown(storage, |prefix| + |data|), |prefix|, data), 0, prefix + data)
  {
    var grown := Grown(storage, |prefix| + |data|);
    var after := Overwritten(grown, |prefix|, data);
    assert grown[..|prefix|] == prefix;
    assert after[..|prefix| + |data|] == prefix + data;
  }

  // ---- Level sizes.

  /** The sizes of the levels that have parents: from `m` nodes up to the last level with more than one. */
  function Ups(m: nat, size: nat): seq<nat>
    requires size >= 2
    decreases m
  {
    if m <= 1 then [] else
      DivCeilBounds(m, size);
      [m] + Ups(DivCeil(m, size), size)
  }

  lemma {:induction false} TowerHeight(hs: seq<Handle>, base: nat, cfg: WriterConfig)
    requires cfg.Allowed()
    ensures |Tower(hs, base, cfg)| == 1 + |Ups(|hs|, cfg.maxNodeChildren)|
    decreases |hs|
  {
    hide ParentRegion, ParentHandles, Chunks, DivCeil;
    if |hs| > 1 {
      var groups := Chunks(hs, cfg.maxNodeChildren);
      ChunksAt(hs, cfg.maxNodeChildren);
      DivCeilBounds(|hs|, cfg.maxNodeChildren);
      TowerHeight(ParentHandles(groups, base, cfg), base + |ParentRegion(groups)|, cfg);
    }
  }

  /** The chain of entry counts: the number of entries, then the number of nodes of every level that needs parents. */
  method EntryCounts(numEntries: nat, size: nat) returns (counts: seq<nat>)
    requires size >= 2
    ensures numEntries == 0 ==> counts == []
    ensures numEntries > 0 ==> counts == [numEntries] + Ups(DivCeil(numEntries, size), size)
  {
    counts := [];
    var count: nat := numEntries;
    if count >= 1 {
      counts := counts + [count];
    }
    DivCeilBounds(count, size);
    while count > size
      invariant count >= 1 ==>
                  && |counts| >= 1
                  && counts + Ups(DivCeil(count, size), size) == [numEntries] + Ups(DivCeil(numEntries, size), size)
      invariant (count == 0 <==> numEntries == 0) && (count == 0 ==> counts == [])
      decreases count
    {
      DivCeilBounds(count, size);
      DivCeilBounds(DivCeil(count, size), size);
      count := DivCeil(count, size);
      counts := counts + [count];
    }
    DivCeilBounds(count, size);
  }

  // ---- What reading a node back yields, for leaves (level 1 and below) and internal nodes.

  ghost predicate IsLeaf(image: Bytes, cfg: WriterConfig, h: Handle, c: seq<Entry>) {
    0 < |c| < U16_LIMIT && |LeafImage(c)| < U64_LIMIT && h == LeafHandle(c, h.start, h.offset, cfg)
        && At(image, h.offset, LeafImage(c))
  }

  ghost predicate IsInternal(image: Bytes, cfg: WriterConfig, h: Handle, c: seq<Handle>) {
    && 0 < |c| < U16_LIMIT && |InternalImage(c)| < U64_LIMIT && h == ParentHandle(c, h.offset, cfg)
    && At(image, h.offset, InternalImage(c)) && forall i :: 0 <= i < |c| ==> HandleFits(c[i])
  }

  /** The node `h` speaks of is stored in `image`. */
  ghost predicate NodeIn(image: Bytes, cfg: WriterConfig, level: nat, h: Handle) {
    if level <= 1 then exists c: seq<Entry> :: IsLeaf(image, cfg, h, c)
    else exists c: seq<Handle> :: IsInternal(image, cfg, h, c)
  }

  ghost predicate LevelIn(image: Bytes, cfg: WriterConfig, level: nat, hs: seq<Handle>) {
    forall i :: 0 <= i < |hs| ==> NodeIn(image, cfg, level, hs[i])
  }

  /** Reads values, outermost keys and size of a node, leaf or internal by level. */
  method ReadNodeMetadata(storage: Bytes, offset: nat, level: nat, ghost cfg: WriterConfig, ghost h: Handle)
    returns (values: seq<Bytes>, firstKey: Bytes, lastKey: Bytes, size: nat)
    requires NodeIn(storage, cfg, level, h) && h.offset == offset
    ensures cfg.Reduce(values) == h.reduced && firstKey == h.left && lastKey == h.right && size == h.size
  {
    hide At, LeafImage, InternalImage, LeafCount, LeafKey, LeafValue, LeafSize, HandleFits;
    hide InternalCount, LeftKey, RightKey, ReducedValue, ChildEntryStart, ChildOffset, ChildSize, InternalSize;
    values := [];
    if level <= 1 {
      ghost var c: seq<Entry> :| IsLeaf(storage, cfg, h, c);
      LeafReads(storage, offset, c, 0);
      var count := LeafCount(storage, offset);
      for i := 0 to count
        invariant |values| == i && forall k :: 0 <= k < i ==> values[k] == c[k].value
      {
        LeafReads(storage, offset, c, i);
        values := values + [LeafValue(storage, offset, i)];
      }
      assert values == Values(c);
      LeafReads(storage, offset, c, count - 1);
      firstKey, lastKey, size := LeafKey(storage, offset, 0), LeafKey(storage, offset, count - 1),
          LeafSize(storage, offset);
    } else {
      ghost var c: seq<Handle> :| IsInternal(storage, cfg, h, c);
      InternalReads(storage, offset, c, 0);
      var count := InternalCount(storage, offset);
      for i := 0 to count
        invariant |values| == i && forall k :: 0 <= k < i ==> values[k] == c[k].reduced
      {
        InternalReads(storage, offset, c, i);
        values := values + [ReducedValue(storage, offset, i)];
      }
      assert values == Reductions(c);
      InternalReads(storage, offset, c, count - 1);
      InternalReadsSize(storage, offset, c);
      firstKey, lastKey, size := LeftKey(storage, offset), RightKey(storage, offset, count - 1),
          InternalSize(storage, offset);
    }
  }

  /** The nodes of a level lie back to back from `from` to `to`, and start at multiples of `span`. */
  ghost predicate Laid(hs: seq<Handle>, from: nat, to: nat, span: nat) {
    && (forall i :: 0 <= i < |hs| ==> hs[i].start == i * span)
    && (forall i :: 0 <= i < |hs| ==> hs[i].offset + hs[i].size == NextOffset(hs, i, to))
    && from == (if hs == [] then to else hs[0].offset)
  }

  ghost function NextOffset(hs: seq<Handle>, i: int, to: nat): nat {
    if 0 <= i + 1 < |hs| then hs[i + 1].offset else to
  }

  /** Everything but the buffered entries lies in full leaves at the front of the storage. */
  ghost predicate FlushedLeaves(storage: Bytes, writeOffset: nat, cfg: WriterConfig, all: seq<Entry>,
          buffered: seq<Entry>)
    requires cfg.Allowed()
  {
    && |buffered| <= |all|
    && var flushed := all[..|all| - |buffered|];
       && all == flushed + buffered && |flushed| % cfg.maxNodeChildren == 0
       && At(storage, 0, LeafRegion(Groups(flushed, cfg))) && writeOffset == |LeafRegion(Groups(flushed, cfg))|
  }

  lemma FlushedPush(storage: Bytes, writeOffset: nat, cfg: WriterConfig, all: seq<Entry>, buffered: seq<Entry>,
          e: Entry)
    requires cfg.Allowed() && FlushedLeaves(storage, writeOffset, cfg, all, buffered)
    ensures FlushedLeaves(storage, writeOffset, cfg, all + [e], buffered + [e])
  {
    hide At, LeafRegion, Groups;
    var flushed := all[..|all| - |buffered|];
    assert (all + [e])[..|all| - |buffered|] == flushed;
    assert flushed + (buffered + [e]) == (flushed + buffered) + [e];
  }

  /** One round of a merge: something is left, and the selected head is next. */
  lemma MergeStep(runs: Runs)
    requires Flatten(runs) != []
    ensures var m := WriterScan(runs, |runs|).1;
            && m < |runs| && runs[m] != []
            && MergeWritten(runs) == [runs[m][0]] + MergeWritten(Drop(runs, m))
            && |Flatten(Drop(runs, m))| == |Flatten(runs)| - 1
  {
    hide WriterScan, Flatten;
    LiveFlatten(runs);
    WriterScanLive(runs, |runs|);
    DropFlatten(runs, WriterScan(runs, |runs|).1);
  }

  /** One entry more of the merge is written. */
  lemma MergePush(done: seq<Entry>, runs: Runs)
    requires Flatten(runs) != []
    ensures var m := WriterScan(runs, |runs|).1;
            && m < |runs| && runs[m] != []
            && done + MergeWritten(runs) == done + [runs[m][0]] + MergeWritten(Drop(runs, m))
            && |Flatten(Drop(runs, m))| == |Flatten(runs)| - 1
  {
    hide WriterScan, Flatten, MergeWritten, Drop;
    MergeStep(runs);
    var m := WriterScan(runs, |runs|).1;
    assert done + ([runs[m][0]] + MergeWritten(Drop(runs, m))) == done + [runs[m][0]] + MergeWritten(Drop(runs, m));
  }

  lemma MergeEnd(runs: Runs)
    requires |Flatten(runs)| == 0
    ensures MergeWritten(runs) == []
  {
  }

  /** Iterators at the beginning of every file, and the number of entries of all of them. */
  method OpenAll(readers: seq<Reader>, ghost files: seq<FileModel>) returns (itrs: seq<PbtIterator>, total: nat)
    requires OpenOn(readers, files)
    ensures |itrs| == |readers| && (forall it :: it in itrs ==> fresh(it))
    ensures Opened(itrs, RunsOf(files)) && total == |Flatten(RunsOf(files))|
  {
    hide PbtIterator.Valid, Opened, RunsOf, OpenOn, Reader.Holds, Flatten;
    itrs, total := [], 0;
    ghost var runs := RunsOf(files);
    NoneOpened(readers, files);
    for i := 0 to |readers|
      invariant |itrs| == i && (forall it :: it in itrs ==> fresh(it))
      invariant Opened(itrs, runs) && total == |Flatten(runs[..i])|
    {
      ReaderAt(readers, files, i);
      var next := readers[i].Begin(files[i].entries, files[i].cfg, files[i].start);
      OpenedPush(itrs, next, runs);
      itrs := itrs + [next];
      FlattenNext(runs, i);
      total := total + readers[i].Count();
    }
    assert runs[..|readers|] == runs;
  }

  lemma NoneOpened(readers: seq<Reader>, files: seq<FileModel>)
    requires OpenOn(readers, files)
    ensures Opened([], RunsOf(files)) && Flatten(RunsOf(files)[..0]) == [] && |readers| == |files|
  {
  }

  lemma ReaderAt(readers: seq<Reader>, files: seq<FileModel>, i: nat)
    requires OpenOn(readers, files) && i < |readers|
    ensures |readers| == |files| == |RunsOf(files)| && RunsOf(files)[i] == files[i].entries
    ensures readers[i].Holds(files[i].entries, files[i].cfg, files[i].start)
    ensures readers[i].Count() == |files[i].entries|
  {
    readers[i].HeightZero(files[i].entries, files[i].cfg, files[i].start);
  }

  lemma FlattenNext(runs: Runs, i: nat)
    requires i < |runs|
    ensures |Flatten(runs[..i + 1])| == |Flatten(runs[..i])| + |runs[i]|
  {
    assert runs[..i + 1] == runs[..i] + [runs[i]];
    FlattenConcat(runs[..i], [runs[i]]);
    assert Flatten([runs[i]]) == runs[i] + Flatten<Entry>([]);
  }

  class Writer {
    const globalStart: nat
    const config: WriterConfig
    var storage: Bytes
    var writeOffset: nat
    var numEntries: nat
    const bufferLeaf: NodeLeafBuilder
    const bufferInternal: NodeInternalBuilder
    ghost var added: seq<Entry>

    /** Between calls of `Add`: full leaves are stored, the rest of the entries is in the leaf buffer. */
    ghost predicate Valid()
      reads this, bufferLeaf, bufferInternal
    {
      && config.Allowed()
      && bufferLeaf.Valid() && bufferInternal.Valid() && bufferInternal.children == []
      && numEntries == |added|
      && |bufferLeaf.entries| < config.maxNodeChildren
      && FlushedLeaves(storage, writeOffset, config, added, bufferLeaf.entries)
    }

    constructor (globalStart: nat, storage: Bytes, config: WriterConfig)
      requires config.Allowed()
      ensures Valid() && added == [] && this.globalStart == globalStart && this.config == config
      ensures fresh(bufferLeaf) && fresh(bufferInternal)
    {
      this.globalStart, this.config := globalStart, config;
      this.storage := seq(|storage|, i => 0);
      writeOffset, numEntries, added := 0, 0, [];
      bufferLeaf := new NodeLeafBuilder();
      bufferInternal := new NodeInternalBuilder();
      new;
      QuotientIs(0, config.maxNodeChildren, 0);
    }

    // Grows the storage as needed and writes `data` at the current end.
    method Emit(data: Bytes, ghost prefix: Bytes)
      requires At(storage, 0, prefix) && writeOffset == |prefix|
      modifies this`storage, this`writeOffset
      ensures At(storage, 0, prefix + data) && writeOffset == |prefix + data|
    {
      WriteExtends(storage, prefix, data);
      storage := Overwritten(Grown(storage, writeOffset + |data|), writeOffset, data);
      writeOffset := writeOffset + |data|;
    }

    method Add(key: Bytes, value: Bytes)
      requires Valid()
      modifies this`storage, this`writeOffset, this`numEntries, this`added, bufferLeaf
      ensures Valid() && added == old(added) + [Entry(key, value)]
    {
      hide FlushedLeaves, NodeLeafBuilder.Valid, NodeInternalBuilder.Valid;
      FlushedPush(storage, writeOffset, config, added, bufferLeaf.entries, Entry(key, value));
      bufferLeaf.AddKeyValue(key, value);
      numEntries := numEntries + 1;
      added := added + [Entry(key, value)];
      bufferLeaf.CountIs();
      if bufferLeaf.numChildren >= config.maxNodeChildren {
        Flush();
      }
    }

    /** Writes the buffered entries as a leaf; afterwards everything added is stored. */
    method Flush()
      requires config.Allowed() && bufferLeaf.Valid() && |bufferLeaf.entries| <= config.maxNodeChildren
      requires FlushedLeaves(storage, writeOffset, config, added, bufferLeaf.entries)
      modifies this`storage, this`writeOffset, bufferLeaf
      ensures bufferLeaf.Valid() && bufferLeaf.entries == []
      ensures At(storage, 0, LeafRegion(Groups(added, config))) && writeOffset == |LeafRegion(Groups(added, config))|
      ensures |added| % config.maxNodeChildren == 0 ==> FlushedLeaves(storage, writeOffset, config, added, [])
      ensures old(|bufferLeaf.entries|) == config.maxNodeChildren ==> |added| % config.maxNodeChildren == 0
    {
      hide At, LeafRegion, Chunks, LeafImage;
      if bufferLeaf.numChildren <= 0 {
        assert added[..|added|] == added;
        FlushedFull(added, bufferLeaf.entries, config.maxNodeChildren);
        return;
      }
      ghost var flushed := added[..|added| - |bufferLeaf.entries|];
      RegionPush(flushed, bufferLeaf.entries, config);
      FlushedFull(added, bufferLeaf.entries, config.maxNodeChildren);
      var node := bufferLeaf.Write();
      Emit(node, LeafRegion(Groups(flushed, config)));
      bufferLeaf.Clear();
      assert added[..|added|] == added && added + [] == added;
    }

    /** Gathers `numChildren` children from index `first` on into one internal node and writes it. */
    method BuildNode(level: nat, first: nat, numChildren: nat, readOffset: nat, childEntryStart: nat, span: nat,
                     ghost hs: seq<Handle>, ghost prefix: Bytes, ghost from: nat, ghost to: nat)
      returns (nextRead: nat, nextStart: nat)
      requires bufferInternal.Valid() && bufferInternal.children == [] && 0 < numChildren < U16_LIMIT
               && first + numChildren <= |hs|
      requires At(storage, 0, prefix) && writeOffset == |prefix|
      requires LevelIn(storage, config, level, hs) && Laid(hs, from, to, span)
      requires readOffset == hs[first].offset && childEntryStart == first * span
      modifies this`storage, this`writeOffset, bufferInternal
      ensures bufferInternal.Valid() && bufferInternal.children == []
      ensures At(storage, 0, prefix + InternalImage(hs[first..first + numChildren]))
      ensures writeOffset == |prefix| + |InternalImage(hs[first..first + numChildren])|
      ensures nextRead == NextOffset(hs, first + numChildren - 1, to) && nextStart == (first + numChildren) * span
    {
      hide At, NodeIn, InternalImage, Laid, NextOffset, NodeInternalBuilder.Valid;
      nextRead, nextStart := readOffset, childEntryStart;
      LaidNext(hs, from, to, span, first);
      for k := 0 to numChildren
        invariant bufferInternal.Valid() && bufferInternal.children == hs[first..first + k]
        invariant nextRead == NextOffset(hs, first + k - 1, to) && nextStart == (first + k) * span
        invariant storage == old(storage) && writeOffset == old(writeOffset)
      {
        ghost var h := hs[first + k];
        LaidNext(hs, from, to, span, first + k);
        var values, firstKey, lastKey, childSize := ReadNodeMetadata(storage, nextRead, level, config, h);
        var reduced := config.Reduce(values);
        if k == 0 {
          bufferInternal.AddFirstChild(firstKey, lastKey, reduced, nextStart, nextRead, childSize);
        } else {
          bufferInternal.AddChild(lastKey, reduced, nextStart, nextRead, childSize, h.left);
        }
        assert hs[first..first + k + 1] == hs[first..first + k] + [h];
        nextRead := nextRead + childSize;
        nextStart := nextStart + span;
      }
      var node := bufferInternal.Write();
      Emit(node, prefix);
      bufferInternal.Clear();
    }

    /** The state of the level loop: the parents of the first `g` groups of `hs` are written behind `prefix`. */
    ghost predicate GroupsWritten(hs: seq<Handle>, prefix: Bytes, g: nat)
      requires config.Allowed()
      reads this, bufferInternal
    {
      && bufferInternal.Valid() && bufferInternal.children == []
      && g <= |Chunks(hs, config.maxNodeChildren)|
      && At(storage, 0, prefix + ParentRegion(Chunks(hs, config.maxNodeChildren)[..g]))
      && writeOffset == |prefix + ParentRegion(Chunks(hs, config.maxNodeChildren)[..g])|
    }

    // One round of the level loop.
    method BuildGroup(level: nat, count: nat, j: nat, readOffset: nat, childEntryStart: nat, span: nat,
                      ghost hs: seq<Handle>, ghost prefix: Bytes, ghost from: nat, ghost g: nat)
      returns (nextRead: nat, nextStart: nat)
      requires config.Allowed() && GroupsWritten(hs, prefix, g) && j < count == |hs| && j == g * config.maxNodeChildren
      requires LevelIn(prefix, config, level, hs) && Laid(hs, from, |prefix|, span)
      requires readOffset == NextOffset(hs, j - 1, |prefix|) && childEntryStart == j * span
      modifies this`storage, this`writeOffset, bufferInternal
      ensures GroupsWritten(hs, prefix, g + 1)
      ensures nextRead == NextOffset(hs, Min(j + config.maxNodeChildren, count) - 1, |prefix|)
      ensures nextStart == Min(j + config.maxNodeChildren, count) * span
    {
      hide At, LevelIn, InternalImage, ParentRegion, Chunks, DivCeil, Chunk, Laid, NextOffset;
      hide NodeInternalBuilder.Valid;
      ghost var cs := Chunks(hs, config.maxNodeChildren);
      ChunksAt(hs, config.maxNodeChildren);
      DivCeilAbove(|hs|, config.maxNodeChildren, g);
      GroupStep(hs, config.maxNodeChildren, g);
      ghost var written := prefix + ParentRegion(cs[..g]);
      LevelInExtends(storage, prefix, ParentRegion(cs[..g]), config, level, hs);
      LaidNext(hs, from, |prefix|, span, j);
      var numChildren := Min(config.maxNodeChildren, count - j);
      nextRead, nextStart := BuildNode(level, j, numChildren, readOffset, childEntryStart, span, hs, written, from,
          |prefix|);
      RegionStep(cs, g);
      Assoc(prefix, ParentRegion(cs[..g]), InternalImage(cs[g]));
    }

    /** Writes the parents of the `count` nodes of a level. */
    method BuildLevel(level: nat, count: nat, readOffset: nat, span: nat,
                      ghost hs: seq<Handle>, ghost prefix: Bytes, ghost from: nat)
      returns (nextRead: nat)
      requires config.Allowed() && GroupsWritten(hs, prefix, 0) && 0 < count == |hs|
      requires LevelIn(prefix, config, level, hs) && Laid(hs, from, |prefix|, span) && readOffset == from
      modifies this`storage, this`writeOffset, bufferInternal
      ensures GroupsWritten(hs, prefix, |Chunks(hs, config.maxNodeChildren)|)
      ensures nextRead == |prefix|
    {
      hide LevelIn, Chunks, DivCeil, Laid, NextOffset, GroupsWritten;
      ghost var b := config.maxNodeChildren;
      ghost var g: nat := 0;
      ChunksAt(hs, b);
      DivCeilBounds(count, b);
      LaidStart(hs, from, |prefix|, span);
      var childEntryStart := 0;
      nextRead := readOffset;
      var j := 0;
      while j < count
        invariant GroupsWritten(hs, prefix, g)
        invariant g <= DivCeil(count, b) && j == g * b && (j < count <==> g < DivCeil(count, b))
        invariant nextRead == NextOffset(hs, Min(j, count) - 1, |prefix|) && childEntryStart == Min(j, count) * span
        decreases DivCeil(count, b) - g
      {
        GroupStep(hs, b, g);
        nextRead, childEntryStart := BuildGroup(level, count, j, nextRead, childEntryStart, span, hs, prefix, from, g);
        g := g + 1;
        j := j + config.maxNodeChildren;
      }
      LaidEnd(hs, from, |prefix|, span);
    }

    /** Adds the entries of all files, in merge order. */
    method Merge(readers: seq<Reader>, ghost files: seq<FileModel>)
      requires Valid() && OpenOn(readers, files)
      modifies this`storage, this`writeOffset, this`numEntries, this`added, bufferLeaf
      ensures Valid() && added == old(added) + MergeWritten(RunsOf(files))
    {
      hide At, FlushedLeaves, NodeLeafBuilder.Valid, NodeInternalBuilder.Valid, PbtIterator.Valid, MergeWritten;
      hide WriterScan;
      hide Cursors, Opened, RunsOf, Flatten, Drop;
      var itrs, totalNumEntries := OpenAll(readers, files);
      ghost var runs := RunsOf(files);
      var keys := ReadKeys(itrs, runs);
      ghost var before, done := added, [];
      assert before + [] == before;
      var i := 0;
      while i < totalNumEntries
        invariant Valid() && Cursors(itrs, keys, runs) && (forall it :: it in itrs ==> fresh(it))
        invariant added == before + done && done + MergeWritten(runs) == MergeWritten(RunsOf(files))
        invariant i <= totalNumEntries && |Flatten(runs)| == totalNumEntries - i
      {
        MergePush(done, runs);
        var minIndex := SelectMin(itrs, keys, runs);
        CursorAt(itrs, keys, runs, minIndex);
        Add(keys[minIndex], itrs[minIndex].GetValue());
        done := done + [runs[minIndex][0]];
        assert itrs[minIndex] in itrs;
        keys := Advance(itrs, keys, minIndex, runs);
        runs := Drop(runs, minIndex);
        i := i + 1;
      }
      MergeEnd(runs);
      assert done + [] == done;
    }

    /** Flushes the last leaf, builds the levels, appends the footer and cuts the storage to size. */
    method Finish()
      requires Valid() && Fits(added, config, globalStart)
      modifies this`storage, this`writeOffset, bufferLeaf, bufferInternal
      ensures IsFile(storage, added, config, globalStart)
      ensures config.reduce.None? ==> NoneReduced(storage, added, config)
      ensures |storage| >= 8 && storage[|storage| - 8..] == FILE_END
    {
      hide NoneReduced;
      hide At, LeafRegion, Nodes, FooterImage, Levels, FooterOf, Fits, NodeInternalBuilder.Valid, NodeLeafBuilder.Valid;
      hide DivCeil;
      hide Groups;
      Flush();
      var counts := EntryCounts(numEntries, config.maxNodeChildren);
      var rootOffset := BuildLevels(counts);
      var footer := Footer(rootOffset, writeOffset - rootOffset, |counts|, globalStart, globalStart + numEntries,
                           VERSION_MAJOR, VERSION_MINOR, MAGIC);
      Emit(FooterImage(footer), Nodes(added, config));
      PrefixIs(storage, PbtImage(added, config, globalStart));
      storage := storage[..writeOffset];
      FinishedFile(storage, added, config, globalStart);
    }

    /** Builds level after level until one node is left; returns where that node lies. */
    method BuildLevels(counts: seq<nat>) returns (readOffset: nat)
      requires config.Allowed() && bufferInternal.Valid() && bufferInternal.children == []
               && Fits(added, config, globalStart)
      requires At(storage, 0, LeafRegion(Groups(added, config))) && writeOffset == |LeafRegion(Groups(added, config))|
      requires if added == [] then counts == []
               else counts == [|added|] + Ups(DivCeil(|added|, config.maxNodeChildren), config.maxNodeChildren)
      modifies this`storage, this`writeOffset, bufferInternal
      ensures At(storage, 0, Nodes(added, config)) && writeOffset == |Nodes(added, config)| >= readOffset
      ensures FooterOf(added, config, globalStart) ==
              Footer(readOffset, writeOffset - readOffset, |counts|, globalStart,
                globalStart + |added|, VERSION_MAJOR, VERSION_MINOR, MAGIC)
    {
      hide At, LeafRegion, LeafHandles, Chunks, DivCeil, InFinish, GroupsWritten, NodeInternalBuilder.Valid;
      hide ParentRegion, ParentHandles;
      hide Nodes, FooterOf, Fits, Wider;
      readOffset := 0;
      var childEntryCountPacked := config.maxNodeChildren;
      ghost var hs, prefix := LeafHandles(Groups(added, config), config), LeafRegion(Groups(added, config));
      LeafLevelReady(added, config, globalStart);
      LeafLevelSize(added, config);
      var i := 1;
      while i < |counts|
        invariant 1 <= i && (i <= |counts| || counts == [])
        invariant bufferInternal.Valid() && bufferInternal.children == []
        invariant At(storage, 0, prefix) && writeOffset == |prefix|
        invariant InFinish(added, config, hs, prefix, i, childEntryCountPacked, readOffset)
        invariant if counts == [] then hs == [] else counts[i..] == Ups(|hs|, config.maxNodeChildren)
      {
        UpsStep(counts, i, |hs|, config.maxNodeChildren);
        readOffset := NextLevel(i, counts[i], readOffset, childEntryCountPacked, hs, prefix);
        ghost var groups := Chunks(hs, config.maxNodeChildren);
        hs, prefix := ParentHandles(groups, |prefix|, config), prefix + ParentRegion(groups);
        i := i + 1;
        childEntryCountPacked := Wider(childEntryCountPacked, config.maxNodeChildren);
      }
      RootReached(added, config, globalStart, hs, prefix, i, childEntryCountPacked, readOffset, |counts|);
    }

    // One round of the loop over the levels.
    method NextLevel(level: nat, count: nat, readOffset: nat, span: nat, ghost hs: seq<Handle>, ghost prefix: Bytes)
      returns (nextRead: nat)
      requires config.Allowed() && bufferInternal.Valid() && bufferInternal.children == []
               && Fits(added, config, globalStart)
      requires At(storage, 0, prefix) && writeOffset == |prefix| && 1 <= level && 1 < count == |hs|
      requires InFinish(added, config, hs, prefix, level, span, readOffset)
      modifies this`storage, this`writeOffset, bufferInternal
      ensures bufferInternal.Valid() && bufferInternal.children == []
      ensures var groups := Chunks(hs, config.maxNodeChildren);
              && |groups| == DivCeil(|hs|, config.maxNodeChildren)
              && At(storage, 0, prefix + ParentRegion(groups)) && writeOffset == |prefix + ParentRegion(groups)|
              && InFinish(added, config, ParentHandles(groups, |prefix|, config), prefix + ParentRegion(groups),
                   level + 1,
                          Wider(span, config.maxNodeChildren), nextRead)
    {
      hide At, Chunks, DivCeil, InFinish, GroupsWritten, NodeInternalBuilder.Valid, ParentRegion, ParentHandles, Fits;
      hide Wider, LevelIn, Laid;
      GroupsStart(hs, prefix);
      AtLevel(added, config, hs, prefix, level, span, readOffset);
      nextRead := BuildLevel(level, count, readOffset, span, hs, prefix, readOffset);
      LevelUp(added, config, globalStart, hs, prefix, level, span, readOffset);
      GroupsEnd(hs, prefix);
    }

    lemma GroupsStart(hs: seq<Handle>, prefix: Bytes)
      requires config.Allowed() && bufferInternal.Valid() && bufferInternal.children == []
      requires At(storage, 0, prefix) && writeOffset == |prefix|
      ensures GroupsWritten(hs, prefix, 0)
    {
      hide At, Chunks, NodeInternalBuilder.Valid;
      var cs := Chunks(hs, config.maxNodeChildren);
      assert cs[..0] == [] && prefix + [] == prefix;
    }

    lemma GroupsEnd(hs: seq<Handle>, prefix: Bytes)
      requires config.Allowed() && GroupsWritten(hs, prefix, |Chunks(hs, config.maxNodeChildren)|)
      ensures bufferInternal.Valid() && bufferInternal.children == []
      ensures var after := prefix + ParentRegion(Chunks(hs, config.maxNodeChildren));
              At(storage, 0, after) && writeOffset == |after|
    {
      hide At, Chunks, ParentRegion, NodeInternalBuilder.Valid;
      var cs := Chunks(hs, config.maxNodeChildren);
      assert cs[..|cs|] == cs;
    }
  }

  /** What holds between two levels of `finish`: the rest of the tower over `hs` is what is still to be written. */
  ghost predicate InFinish(es: seq<Entry>, cfg: WriterConfig, hs: seq<Handle>, prefix: Bytes, level: nat, span: nat,
          from: nat)
    requires cfg.Allowed()
  {
    && prefix + TowerRegion(hs, |prefix|, cfg) == Nodes(es, cfg)
    && TopOf(Tower(hs, |prefix|, cfg)) == TopOf(Levels(es, cfg))
    && LevelIn(prefix, cfg, level, hs) && Laid(hs, from, |prefix|, span)
    && (forall i :: 0 <= i < |hs| ==> hs[i].start < U64_LIMIT)
    && |Levels(es, cfg)| == level - 1 + |Tower(hs, |prefix|, cfg)|
    && (hs == [] <==> es == [])
  }

  function TopOf(levels: seq<seq<Handle>>): seq<Handle> {
    if levels == [] then [] else levels[|levels| - 1]
  }

  lemma LeafLevelReady(es: seq<Entry>, cfg: WriterConfig, globalStart: nat)
    requires cfg.Allowed() && Fits(es, cfg, globalStart)
    ensures InFinish(es, cfg, LeafHandles(Groups(es, cfg), cfg), LeafRegion(Groups(es, cfg)), 1, cfg.maxNodeChildren, 0)
  {
    hide Tower, TowerRegion, Chunks, LeafRegion, At, LeafImage, PbtImage, LeafStored, Laid;
    var cs := Groups(es, cfg);
    var hs, region := LeafHandles(cs, cfg), LeafRegion(cs);
    ChunksAt(es, cfg.maxNodeChildren);
    DivCeilBounds(|es|, cfg.maxNodeChildren);
    PrefixSmall(es, cfg, globalStart, region, TowerRegion(hs, |region|, cfg));
    LeavesLaid(es, cfg);
    forall j | 0 <= j < |hs| ensures NodeIn(region, cfg, 1, hs[j]) && hs[j].start < U64_LIMIT {
      LeafLevelAt(cs, cfg, j);
      EntryCountFull(es, cfg.maxNodeChildren, j);
      ChunkBounds(|es|, cfg.maxNodeChildren, j);
      LeafAddressable(region, hs[j].offset, cs[j]);
      assert IsLeaf(region, cfg, hs[j], cs[j]);
    }
  }

  lemma PrefixSmall(es: seq<Entry>, cfg: WriterConfig, globalStart: nat, prefix: Bytes, rest: Bytes)
    requires cfg.Allowed() && Fits(es, cfg, globalStart) && prefix + rest == Nodes(es, cfg)
    ensures |prefix| < U64_LIMIT && |es| < U64_LIMIT
  {
    hide Nodes, FooterOf;
  }

  lemma LeavesLaid(es: seq<Entry>, cfg: WriterConfig)
    requires cfg.Allowed()
    ensures Laid(LeafHandles(Groups(es, cfg), cfg), 0, |LeafRegion(Groups(es, cfg))|, cfg.maxNodeChildren)
  {
    hide Chunks, At, LeafImage, LeafHandles;
    var cs := Groups(es, cfg);
    var hs, region := LeafHandles(cs, cfg), LeafRegion(cs);
    forall j | 0 <= j < |hs|
      ensures hs[j].start == j * cfg.maxNodeChildren && hs[j].offset + hs[j].size == NextOffset(hs, j, |region|)
    {
      LeafLevelAt(cs, cfg, j);
      EntryCountFull(es, cfg.maxNodeChildren, j);
      assert cs[..j + 1][..j] == cs[..j];
      if j + 1 < |hs| {
        LeafLevelAt(cs, cfg, j + 1);
      } else {
        assert cs[..j + 1] == cs;
      }
    }
    if hs != [] {
      LeafLevelAt(cs, cfg, 0);
    }
  }

  lemma ParentsLaid(hs: seq<Handle>, base: nat, cfg: WriterConfig, from: nat, span: nat)
    requires cfg.Allowed() && Laid(hs, from, base, span)
    ensures var cs := Chunks(hs, cfg.maxNodeChildren);
            Laid(ParentHandles(cs, base, cfg), base, base + |ParentRegion(cs)|, Wider(span, cfg.maxNodeChildren))
  {
    hide Chunks, InternalImage, ParentHandles, ParentRegion, Laid, Wider;
    var cs := Chunks(hs, cfg.maxNodeChildren);
    var ps, region := ParentHandles(cs, base, cfg), ParentRegion(cs);
    ChunksAt(hs, cfg.maxNodeChildren);
    forall j | 0 <= j < |ps|
      ensures ps[j].start == j * Wider(span, cfg.maxNodeChildren)
              && ps[j].offset + ps[j].size == NextOffset(ps, j, base + |region|)
      ensures j == 0 ==> ps[j].offset == base
    {
      ParentStart(hs, base, cfg, from, span, j);
      ParentNext(cs, base, cfg, j);
    }
    RegionEmpty();
    LaidIf(ps, base, base + |region|, Wider(span, cfg.maxNodeChildren), cs);
  }

  lemma LaidIf(hs: seq<Handle>, from: nat, to: nat, span: nat, cs: seq<seq<Handle>>)
    requires forall j :: 0 <= j < |hs| ==> hs[j].start == j * span && hs[j].offset + hs[j].size == NextOffset(hs, j, to)
    requires if hs == [] then from == to else hs[0].offset == from
    ensures Laid(hs, from, to, span)
  {
  }

  lemma ParentStart(hs: seq<Handle>, base: nat, cfg: WriterConfig, from: nat, span: nat, j: nat)
    requires cfg.Allowed() && Laid(hs, from, base, span) && j < DivCeil(|hs|, cfg.maxNodeChildren)
    ensures |Chunks(hs, cfg.maxNodeChildren)| == DivCeil(|hs|, cfg.maxNodeChildren)
    ensures ParentHandles(Chunks(hs, cfg.maxNodeChildren), base, cfg)[j].start == j * Wider(span, cfg.maxNodeChildren)
  {
    hide Chunks, InternalImage, ParentHandles, ParentRegion, Laid, DivCeil, Chunk, At, Wider;
    var b := cfg.maxNodeChildren;
    ChunksAt(hs, b);
    ParentLevelAt(Chunks(hs, b), base, cfg, j);
    GroupStep(hs, b, j);
    LaidNext(hs, from, base, span, j * b);
    StartsMultiply(j, b, span);
  }

  lemma ParentNext(cs: seq<seq<Handle>>, base: nat, cfg: WriterConfig, j: nat)
    requires NoneEmpty(cs) && j < |cs|
    ensures var ps := ParentHandles(cs, base, cfg);
            && ps[j].offset + ps[j].size == NextOffset(ps, j, base + |ParentRegion(cs)|)
            && (j == 0 ==> ps[j].offset == base)
  {
    hide InternalImage, ParentHandles, ParentRegion, At;
    ParentLevelAt(cs, base, cfg, j);
    RegionStep(cs, j);
    RegionEmpty();
    if j + 1 < |cs| {
      ParentLevelAt(cs, base, cfg, j + 1);
    } else {
      assert cs[..j + 1] == cs;
    }
    assert cs[..0] == [];
  }

  /** Entries under a full node one level up. */
  function Wider(span: nat, size: nat): nat {
    span * size
  }

  lemma StartsMultiply(j: nat, b: nat, span: nat)
    ensures j * b * span == j * Wider(span, b)
  {
    Associate(j, b, span);
    assert b * span == span * b;
  }

  /** Once its parents are written, a level is done and the parents take its place. */
  lemma LevelUp(es: seq<Entry>, cfg: WriterConfig, globalStart: nat, hs: seq<Handle>, prefix: Bytes, level: nat,
          span: nat, from: nat)
    requires cfg.Allowed() && Fits(es, cfg, globalStart) && 1 <= level && |hs| > 1
    requires InFinish(es, cfg, hs, prefix, level, span, from)
    ensures var groups := Chunks(hs, cfg.maxNodeChildren);
            && |groups| == DivCeil(|hs|, cfg.maxNodeChildren)
            && InFinish(es, cfg, ParentHandles(groups, |prefix|, cfg), prefix + ParentRegion(groups), level + 1,
                        Wider(span, cfg.maxNodeChildren), |prefix|)
  {
    hide Chunks, Levels, Nodes, PbtImage, ParentRegion, ParentHandles, InternalImage, Laid, LevelIn, Fits, Tower;
    hide TowerRegion;
    hide DivCeil, TopOf, Wider;
    var groups := Chunks(hs, cfg.maxNodeChildren);
    ChunksAt(hs, cfg.maxNodeChildren);
    DivCeilBounds(|hs|, cfg.maxNodeChildren);
    var ps, after := ParentHandles(groups, |prefix|, cfg), prefix + ParentRegion(groups);
    TopShared(hs, |prefix|, cfg);
    Assoc(prefix, ParentRegion(groups), TowerRegion(ps, |after|, cfg));
    ParentsLaid(hs, |prefix|, cfg, from, span);
    PrefixSmall(es, cfg, globalStart, after, TowerRegion(ps, |after|, cfg));
    ParentsIn(cfg, hs, prefix, level);
  }

  lemma TopShared(hs: seq<Handle>, base: nat, cfg: WriterConfig)
    requires cfg.Allowed() && |hs| > 1
    ensures var groups := Chunks(hs, cfg.maxNodeChildren);
            && TopOf(Tower(ParentHandles(groups, base, cfg), base + |ParentRegion(groups)|, cfg)) ==
                 TopOf(Tower(hs, base, cfg))
            && |Tower(hs, base, cfg)| == 1 + |Tower(ParentHandles(groups, base, cfg), base + |ParentRegion(groups)|,
                 cfg)|
            && TowerRegion(hs, base, cfg)
               == ParentRegion(groups) + TowerRegion(ParentHandles(groups, base, cfg), base + |ParentRegion(groups)|,
                   cfg)
  {
    hide Chunks, ParentRegion, ParentHandles;
  }

  lemma ParentsIn(cfg: WriterConfig, hs: seq<Handle>, prefix: Bytes, level: nat)
    requires cfg.Allowed() && 1 <= level && LevelIn(prefix, cfg, level, hs)
             && (forall i :: 0 <= i < |hs| ==> hs[i].start < U64_LIMIT)
    requires |prefix + ParentRegion(Chunks(hs, cfg.maxNodeChildren))| < U64_LIMIT
    ensures var cs := Chunks(hs, cfg.maxNodeChildren);
            var ps := ParentHandles(cs, |prefix|, cfg);
            && LevelIn(prefix + ParentRegion(cs), cfg, level + 1, ps)
            && forall i :: 0 <= i < |ps| ==> ps[i].start < U64_LIMIT
  {
    hide Chunks, ParentRegion, ParentHandles, InternalImage, LeafImage, At, NodeIn;
    var cs := Chunks(hs, cfg.maxNodeChildren);
    var ps, region := ParentHandles(cs, |prefix|, cfg), ParentRegion(cs);
    ChunksAt(hs, cfg.maxNodeChildren);
    forall j | 0 <= j < |ps| ensures NodeIn(prefix + region, cfg, level + 1, ps[j]) && ps[j].start < U64_LIMIT {
      ParentLevelAt(cs, |prefix|, cfg, j);
      GroupStep(hs, cfg.maxNodeChildren, j);
      AtShifted(prefix, region, |ParentRegion(cs[..j])|, InternalImage(cs[j]));
      NodeAddressable(prefix + region, ps[j].offset, cs[j]);
      forall i | 0 <= i < |cs[j]| ensures HandleFits(cs[j][i]) {
        NodeInside(prefix, cfg, level, cs[j][i]);
      }
      InternalIsIn(prefix + region, cfg, level + 1, ps[j], cs[j]);
    }
  }

  lemma InternalIsIn(image: Bytes, cfg: WriterConfig, level: nat, h: Handle, c: seq<Handle>)
    requires level > 1 && IsInternal(image, cfg, h, c)
    ensures NodeIn(image, cfg, level, h)
  {
  }

  lemma AtShifted(prefix: Bytes, more: Bytes, offset: nat, data: Bytes)
    requires At(more, offset, data)
    ensures At(prefix + more, |prefix| + offset, data)
  {
    AtEnd(prefix, more);
    AtWithin(prefix + more, |prefix|, more, offset, data);
  }

  lemma NodeInside(image: Bytes, cfg: WriterConfig, level: nat, h: Handle)
    requires NodeIn(image, cfg, level, h)
    ensures h.offset + h.size <= |image|
  {
    hide LeafImage, InternalImage;
  }

  lemma AtLevel(es: seq<Entry>, cfg: WriterConfig, hs: seq<Handle>, prefix: Bytes, level: nat, span: nat, from: nat)
    requires cfg.Allowed() && InFinish(es, cfg, hs, prefix, level, span, from)
    ensures LevelIn(prefix, cfg, level, hs) && Laid(hs, from, |prefix|, span)
  {
  }

  lemma FinishedFile(image: Bytes, es: seq<Entry>, cfg: WriterConfig, globalStart: nat)
    requires IsFile(image, es, cfg, globalStart)
    ensures cfg.reduce.None? ==> NoneReduced(image, es, cfg)
    ensures |image| >= 8 && image[|image| - 8..] == FILE_END
  {
    hide IsFile, NoneReduced;
    if cfg.reduce.None? {
      StoresUnreduced(image, es, cfg, globalStart);
    }
    FileEnds(image, es, cfg, globalStart);
  }

  lemma PrefixIs(storage: Bytes, data: Bytes)
    ensures At(storage, 0, data) ==> storage[..|data|] == data
  {
  }

  lemma LeafLevelSize(es: seq<Entry>, cfg: WriterConfig)
    requires cfg.Allowed()
    ensures |LeafHandles(Groups(es, cfg), cfg)| == DivCeil(|es|, cfg.maxNodeChildren)
    ensures es == [] ==> LeafHandles(Groups(es, cfg), cfg) == []
  {
    hide Chunks, LeafHandles, DivCeil;
    ChunksAt(es, cfg.maxNodeChildren);
    DivCeilBounds(|es|, cfg.maxNodeChildren);
  }

  /** A level with parents has more than one node, and the count recorded for it is its size. */
  lemma UpsStep(counts: seq<nat>, i: nat, m: nat, size: nat)
    requires size >= 2 && i < |counts| && counts[i..] == Ups(m, size)
    ensures m > 1 && counts[i] == m && counts[i + 1..] == Ups(DivCeil(m, size), size)
  {
    hide DivCeil;
    assert counts[i..] == [counts[i]] + counts[i + 1..];
  }

  lemma NodesEmpty(cfg: WriterConfig)
    requires cfg.Allowed()
    ensures Nodes([], cfg) == []
  {
    assert Groups([], cfg) == [] && LeafHandles([], cfg) == [];
  }

  /** With at most one node left everything is written, and that node is the root the footer names. */
  lemma RootReached(es: seq<Entry>, cfg: WriterConfig, globalStart: nat, hs: seq<Handle>, prefix: Bytes,
                                       level: nat, span: nat, from: nat, height: nat)
    requires cfg.Allowed() && InFinish(es, cfg, hs, prefix, level, span, from)
    requires if height == 0 then hs == [] else Ups(|hs|, cfg.maxNodeChildren) == [] && level == height
    requires es == [] <==> height == 0
    ensures prefix == Nodes(es, cfg) && from <= |prefix|
    ensures FooterOf(es, cfg, globalStart) == Footer(from, |prefix| - from, height, globalStart, globalStart + |es|,
              VERSION_MAJOR, VERSION_MINOR, MAGIC)
  {
    hide Nodes, Levels, LevelIn;
    assert |hs| <= 1;
    assert prefix + [] == prefix;
    if es == [] {
      NodesEmpty(cfg);
    }
  }

  lemma DivCeilAbove(n: nat, size: nat, g: nat)
    requires size > 0 && g * size < n
    ensures g < DivCeil(n, size)
  {
    DivCeilBounds(n, size);
    Monotone(DivCeil(n, size), g, size);
  }

  /** Group `g` of a level in terms of the loop counter j = g * size. */
  lemma GroupStep(hs: seq<Handle>, size: nat, g: nat)
    requires size > 0 && g < DivCeil(|hs|, size)
    ensures var j := g * size;
            && j < |hs| && j + size == (g + 1) * size
            && (j + size < |hs| <==> g + 1 < DivCeil(|hs|, size))
            && Chunk(hs, size, g) == hs[j..j + Min(size, |hs| - j)]
  {
    ChunkBounds(|hs|, size, g);
  }

  lemma LaidStart(hs: seq<Handle>, from: nat, to: nat, span: nat)
    requires Laid(hs, from, to, span) && hs != []
    ensures from == NextOffset(hs, -1, to)
  {
  }

  lemma LaidNext(hs: seq<Handle>, from: nat, to: nat, span: nat, i: nat)
    requires Laid(hs, from, to, span) && i < |hs|
    ensures NextOffset(hs, i - 1, to) == hs[i].offset && NextOffset(hs, i, to) == hs[i].offset + hs[i].size
    ensures hs[i].start == i * span && hs[i].start + span == (i + 1) * span
  {
    Distribute(i, 1, span);
  }

  lemma LaidEnd(hs: seq<Handle>, from: nat, to: nat, span: nat)
    ensures NextOffset(hs, |hs| - 1, to) == to
  {
  }

  lemma RegionEmpty()
    ensures ParentRegion([]) == []
  {
  }

  lemma RegionStep(cs: seq<seq<Handle>>, g: nat)
    requires g < |cs| && NoneEmpty(cs)
    ensures ParentRegion(cs[..g + 1]) == ParentRegion(cs[..g]) + InternalImage(cs[g])
  {
    assert cs[..g + 1][..g] == cs[..g];
  }

  /** What a prefix of the file stores, the file stores. */
  lemma LevelInExtends(image: Bytes, prefix: Bytes, more: Bytes, cfg: WriterConfig, level: nat, hs: seq<Handle>)
    requires LevelIn(prefix, cfg, level, hs) && At(image, 0, prefix + more)
    ensures LevelIn(image, cfg, level, hs)
  {
    hide At, LeafImage, InternalImage, LeafHandle, ParentHandle, HandleFits;
    AtSplit(image, 0, prefix, more);
    forall i | 0 <= i < |hs| ensures NodeIn(image, cfg, level, hs[i]) {
      assert NodeIn(prefix, cfg, level, hs[i]);
      if level <= 1 {
        var c: seq<Entry> :| IsLeaf(prefix, cfg, hs[i], c);
        AtWithin(image, 0, prefix, hs[i].offset, LeafImage(c));
        assert IsLeaf(image, cfg, hs[i], c);
      } else {
        var c: seq<Handle> :| IsInternal(prefix, cfg, hs[i], c);
        AtWithin(image, 0, prefix, hs[i].offset, InternalImage(c));
        assert IsInternal(image, cfg, hs[i], c);
      }
    }
  }

  lemma FlushedFull(all: seq<Entry>, buffered: seq<Entry>, size: nat)
    requires size > 0 && |buffered| <= |all| && (|all| - |buffered|) % size == 0
    ensures |buffered| == size || |buffered| == 0 ==> |all| % size == 0
  {
    if |buffered| == size {
      var q := (|all| - |buffered|) / size;
      DivMod(|all| - |buffered|, size);
      assert (q + 1) * size == q * size + size;
      QuotientIs(|all|, size, q + 1);
    }
  }

  lemma RegionPush(flushed: seq<Entry>, last: seq<Entry>, cfg: WriterConfig)
    requires cfg.Allowed() && 0 < |last| <= cfg.maxNodeChildren && |flushed| % cfg.maxNodeChildren == 0
    ensures LeafRegion(Groups(flushed + last, cfg)) == LeafRegion(Groups(flushed, cfg)) + LeafImage(last)
  {
    hide Chunks, LeafImage;
    var cs := Groups(flushed, cfg);
    ChunksPush(flushed, last, cfg.maxNodeChildren);
    assert (cs + [last])[..|cs|] == cs;
  }
}
