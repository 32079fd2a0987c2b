// Nodes and footer as bytes: what the builders write and what the offset-based readers find.
module Structures {
  import opened Bytes
  import opened Entries

  // ---------------------------------------------------------------- leaf nodes

  const LEAF_RECORD: nat := 24

  function LeafHeader(count: nat): nat { 2 + LEAF_RECORD * count }

  /** Keys and values of the entries, back to back. */
  function EntryData(es: seq<Entry>): Bytes {
    if es == [] then [] else EntryData(es[..|es| - 1]) + (es[|es| - 1].key + es[|es| - 1].value)
  }

  function LeafRecord(es: seq<Entry>, i: nat): (b: Bytes)
    requires i < |es|
    ensures |b| == LEAF_RECORD
  {
    Encode(LeafHeader(|es|) + |EntryData(es[..i])|, 8) + (Encode(|es[i].key|, 8) + Encode(|es[i].value|, 8))
  }

  function LeafRecords(es: seq<Entry>, count: nat): (b: Bytes)
    requires count <= |es|
    ensures |b| == LEAF_RECORD * count
  {
    if count == 0 then [] else LeafRecords(es, count - 1) + LeafRecord(es, count - 1)
  }

  /** The bytes of the leaf node that holds `es`. */
  function LeafImage(es: seq<Entry>): (b: Bytes)
    ensures |b| == LeafHeader(|es|) + |EntryData(es)|
  {
    Encode(|es|, 2) + (LeafRecords(es, |es|) + EntryData(es))
  }

  function LeafCount(image: Bytes, node: nat): nat {
    ReadUint(image, node, 2)
  }

  function LeafKey(image: Bytes, node: nat, i: nat): Bytes {
    var rec := node + 2 + LEAF_RECORD * i;
    Slice(image, node + ReadUint(image, rec, 8), ReadUint(image, rec + 8, 8))
  }

  function LeafValue(image: Bytes, node: nat, i: nat): Bytes {
    var rec := node + 2 + LEAF_RECORD * i;
    Slice(image, node + ReadUint(image, rec, 8) + ReadUint(image, rec + 8, 8), ReadUint(image, rec + 16, 8))
  }

  /** A leaf does not store its size: it ends where its last value ends. */
  function LeafSize(image: Bytes, node: nat): nat {
    var count := LeafCount(image, node);
    if count == 0 then 0 else
      var rec := node + 2 + LEAF_RECORD * (count - 1);
      ReadUint(image, rec, 8) + ReadUint(image, rec + 8, 8) + ReadUint(image, rec + 16, 8)
  }

  lemma EntryDataPush(es: seq<Entry>, e: Entry)
    ensures EntryData(es + [e]) == EntryData(es) + (e.key + e.value)
    ensures forall i :: 0 <= i <= |es| ==> (es + [e])[..i] == es[..i]
  {
    assert (es + [e])[..|es|] == es;
  }

  lemma WrapIncrement(n: nat)
    ensures (n % U16_LIMIT + 1) % U16_LIMIT == (n + 1) % U16_LIMIT
  {
  }

  lemma {:induction false} EntryDataAt(es: seq<Entry>, i: nat)
    requires i < |es|
    ensures At(EntryData(es), |EntryData(es[..i])|, es[i].key + es[i].value)
  {
    var n := |es| - 1;
    if i < n {
      EntryDataAt(es[..n], i);
      assert es[..n][..i] == es[..i];
    }
  }

  lemma {:induction false} LeafRecordAt(es: seq<Entry>, count: nat, i: nat)
    requires i < count <= |es|
    ensures At(LeafRecords(es, count), LEAF_RECORD * i, LeafRecord(es, i))
  {
    if i < count - 1 {
      LeafRecordAt(es, count - 1, i);
    }
  }

  /** Field readers invert the leaf layout, wherever in the file the node lies. */
  lemma LeafReads(image: Bytes, node: nat, es: seq<Entry>, i: nat)
    requires At(image, node, LeafImage(es))
    requires i < |es| < U16_LIMIT && |LeafImage(es)| < U64_LIMIT
    ensures LeafCount(image, node) == |es|
    ensures LeafKey(image, node, i) == es[i].key
    ensures LeafValue(image, node, i) == es[i].value
    ensures LeafSize(image, node) == |LeafImage(es)|
  {
    hide At, Encode, Decode, Slice, LeafRecords, LeafRecord, LeafKey, LeafValue, Limit;
    Limits();
    LeafParts(image, node, es);
    AtUint(image, node, |es|, 2);
    LeafReadsRecord(image, node, es, i);
    LeafReadsRecord(image, node, es, |es| - 1);
    var n := |es| - 1;
    assert es[..n + 1] == es;
  }

  lemma {:induction false} LeafParts(image: Bytes, node: nat, es: seq<Entry>)
    requires At(image, node, LeafImage(es))
    ensures At(image, node, Encode(|es|, 2))
    ensures At(image, node + 2, LeafRecords(es, |es|))
    ensures At(image, node + LeafHeader(|es|), EntryData(es))
  {
    hide At, Encode, LeafRecords, LeafRecord, EntryData;
    var records, data := LeafRecords(es, |es|), EntryData(es);
    assert LeafImage(es) == Encode(|es|, 2) + (records + data);
    AtSplit(image, node, Encode(|es|, 2), records + data);
    AtSplit(image, node + 2, records, data);
  }

  lemma LeafReadsRecord(image: Bytes, node: nat, es: seq<Entry>, i: nat)
    requires At(image, node, LeafImage(es))
    requires i < |es| && |LeafImage(es)| < U64_LIMIT
    ensures var rec := node + 2 + LEAF_RECORD * i;
            && ReadUint(image, rec, 8) == LeafHeader(|es|) + |EntryData(es[..i])|
            && ReadUint(image, rec + 8, 8) == |es[i].key|
            && ReadUint(image, rec + 16, 8) == |es[i].value|
    ensures LeafKey(image, node, i) == es[i].key && LeafValue(image, node, i) == es[i].value
  {
    hide At, Encode, Decode, LeafRecords, EntryData, Limit;
    Limits();
    LeafParts(image, node, es);
    var rec := node + 2 + LEAF_RECORD * i;
    var data := LeafHeader(|es|) + |EntryData(es[..i])|;
    EntryDataAt(es, i);
    AtWithin(image, node + LeafHeader(|es|), EntryData(es), |EntryData(es[..i])|, es[i].key + es[i].value);
    AtSplit(image, node + data, es[i].key, es[i].value);
    LeafRecordAt(es, |es|, i);
    AtWithin(image, node + 2, LeafRecords(es, |es|), LEAF_RECORD * i, LeafRecord(es, i));
    AtSplit(image, rec, Encode(data, 8), Encode(|es[i].key|, 8) + Encode(|es[i].value|, 8));
    AtSplit(image, rec + 8, Encode(|es[i].key|, 8), Encode(|es[i].value|, 8));
    AtUint(image, rec, data, 8);
    AtUint(image, rec + 8, |es[i].key|, 8);
    AtUint(image, rec + 16, |es[i].value|, 8);
    AtSlice(image, node + data, es[i].key);
    AtSlice(image, node + data + |es[i].key|, es[i].value);
  }

  /** Write-only leaf node; `num_children` is a 16-bit counter. */
  class NodeLeafBuilder {
    var numChildren: nat
    var dataOffsets: seq<nat>
    var keySizes: seq<nat>
    var valueSizes: seq<nat>
    var data: Bytes
    ghost var entries: seq<Entry>

    ghost predicate Valid()
      reads this
    {
      && numChildren == |entries| % U16_LIMIT
      && |dataOffsets| == |keySizes| == |valueSizes| == |entries|
      && data == EntryData(entries)
      && forall i :: 0 <= i < |entries| ==>
           && dataOffsets[i] == |EntryData(entries[..i])|
           && keySizes[i] == |entries[i].key|
           && valueSizes[i] == |entries[i].value|
    }

    constructor ()
      ensures Valid() && entries == []
    {
      numChildren, dataOffsets, keySizes, valueSizes, data := 0, [], [], [], [];
      entries := [];
    }

    method AddKeyValue(key: Bytes, value: Bytes)
      requires Valid()
      modifies this
      ensures Valid() && entries == old(entries) + [Entry(key, value)]
    {
      hide EntryData;
      ghost var before, e := entries, Entry(key, value);
      EntryDataPush(before, e);
      WrapIncrement(|before|);
      numChildren := (numChildren + 1) % U16_LIMIT;
      dataOffsets := dataOffsets + [|data|];
      keySizes := keySizes + [|key|];
      valueSizes := valueSizes + [|value|];
      data := data + (key + value);
      entries := before + [e];
      assert forall i :: 0 <= i < |before| ==> entries[i] == before[i];
    }

    lemma CountIs()
      requires Valid() && |entries| < U16_LIMIT
      ensures numChildren == |entries|
    {
    }

    method Clear()
      modifies this
      ensures Valid() && entries == []
    {
      numChildren, dataOffsets, keySizes, valueSizes, data := 0, [], [], [], [];
      entries := [];
    }

    /** Emits the node; every count and size below the field widths, the result is the documented layout. */
    method Write() returns (image: Bytes)
      requires Valid() && |entries| < U16_LIMIT
      ensures image == LeafImage(entries)
    {
      hide Encode, EntryData;
      var header := 2 + 3 * 8 * numChildren;
      image := Encode(numChildren, 2);
      ghost var prefix := image;
      for i := 0 to numChildren
        invariant image == prefix + LeafRecords(entries, i)
      {
        var record := Encode(dataOffsets[i] + header, 8) + (Encode(keySizes[i], 8) + Encode(valueSizes[i], 8));
        assert record == LeafRecord(entries, i);
        Assoc(prefix, LeafRecords(entries, i), record);
        image := image + record;
      }
      Assoc(prefix, LeafRecords(entries, |entries|), data);
      image := image + data;
    }
  }

  // ---------------------------------------------------------------- internal nodes

  /** What a parent knows of one child: first entry index, place in the file, outermost keys, reduced value. */
  datatype Handle = Handle(start: nat, offset: nat, size: nat, left: Bytes, right: Bytes, reduced: Bytes)

  const CHILD_RECORD: nat := 48

  function InternalHeader(count: nat): nat { 18 + CHILD_RECORD * count }

  /** The first child's left key, then right key and reduced value of the first `count` children. */
  function ChildData(hs: seq<Handle>, count: nat): Bytes
    requires 0 < |hs| && count <= |hs|
  {
    if count == 0 then hs[0].left else ChildData(hs, count - 1) + (hs[count - 1].right + hs[count - 1].reduced)
  }

  function ChildRecord(hs: seq<Handle>, i: nat): (b: Bytes)
    requires i < |hs|
    ensures |b| == CHILD_RECORD
  {
    Encode(InternalHeader(|hs|) + |ChildData(hs, i)|, 8) + (Encode(|hs[i].right|, 8) + (Encode(|hs[i].reduced|, 8)
    + (Encode(hs[i].start, 8) + (Encode(hs[i].offset, 8) + Encode(hs[i].size, 8)))))
  }

  function ChildRecords(hs: seq<Handle>, count: nat): (b: Bytes)
    requires count <= |hs|
    ensures |b| == CHILD_RECORD * count
  {
    if count == 0 then [] else ChildRecords(hs, count - 1) + ChildRecord(hs, count - 1)
  }

  /** The bytes of the internal node whose children are `hs`. */
  function InternalImage(hs: seq<Handle>): (b: Bytes)
    requires 0 < |hs|
    ensures |b| == InternalHeader(|hs|) + |ChildData(hs, |hs|)|
  {
    Encode(|hs|, 2) + (Encode(InternalHeader(|hs|), 8) + (Encode(|hs[0].left|, 8)
    + (ChildRecords(hs, |hs|) + ChildData(hs, |hs|))))
  }

  function InternalCount(image: Bytes, node: nat): nat {
    ReadUint(image, node, 2)
  }

  function LeftKey(image: Bytes, node: nat): Bytes {
    Slice(image, node + ReadUint(image, node + 2, 8), ReadUint(image, node + 10, 8))
  }

  function RightKey(image: Bytes, node: nat, i: nat): Bytes {
    var rec := node + 18 + CHILD_RECORD * i;
    Slice(image, node + ReadUint(image, rec, 8), ReadUint(image, rec + 8, 8))
  }

  function ReducedValue(image: Bytes, node: nat, i: nat): Bytes {
    var rec := node + 18 + CHILD_RECORD * i;
    Slice(image, node + ReadUint(image, rec, 8) + ReadUint(image, rec + 8, 8), ReadUint(image, rec + 16, 8))
  }

  function ChildEntryStart(image: Bytes, node: nat, i: nat): nat {
    ReadUint(image, node + 18 + CHILD_RECORD * i + 24, 8)
  }

  function ChildOffset(image: Bytes, node: nat, i: nat): nat {
    ReadUint(image, node + 18 + CHILD_RECORD * i + 32, 8)
  }

  function ChildSize(image: Bytes, node: nat, i: nat): nat {
    ReadUint(image, node + 18 + CHILD_RECORD * i + 40, 8)
  }

  function InternalSize(image: Bytes, node: nat): nat {
    var count := InternalCount(image, node);
    if count == 0 then 0 else
      var rec := node + 18 + CHILD_RECORD * (count - 1);
      ReadUint(image, rec, 8) + ReadUint(image, rec + 8, 8) + ReadUint(image, rec + 16, 8)
  }

  /** Every number a node stores about this child fits its 64-bit field. */
  predicate HandleFits(h: Handle) {
    h.start < U64_LIMIT && h.offset < U64_LIMIT && h.size < U64_LIMIT
  }

  lemma {:induction false} ChildDataAt(hs: seq<Handle>, count: nat, i: nat)
    requires i < count <= |hs|
    ensures At(ChildData(hs, count), |ChildData(hs, i)|, hs[i].right + hs[i].reduced)
    ensures At(ChildData(hs, count), 0, hs[0].left)
  {
    if i < count - 1 {
      ChildDataAt(hs, count - 1, i);
    } else if i > 0 {
      ChildDataAt(hs, count - 1, 0);
    }
  }

  lemma {:induction false} ChildRecordAt(hs: seq<Handle>, count: nat, i: nat)
    requires i < count <= |hs|
    ensures At(ChildRecords(hs, count), CHILD_RECORD * i, ChildRecord(hs, i))
  {
    if i < count - 1 {
      ChildRecordAt(hs, count - 1, i);
    }
  }

  lemma InternalParts(image: Bytes, node: nat, hs: seq<Handle>)
    requires 0 < |hs| && At(image, node, InternalImage(hs))
    ensures At(image, node, Encode(|hs|, 2))
    ensures At(image, node + 2, Encode(InternalHeader(|hs|), 8))
    ensures At(image, node + 10, Encode(|hs[0].left|, 8))
    ensures At(image, node + 18, ChildRecords(hs, |hs|))
    ensures At(image, node + InternalHeader(|hs|), ChildData(hs, |hs|))
  {
    hide At, Encode, ChildRecords, ChildRecord, ChildData;
    var tail := ChildRecords(hs, |hs|) + ChildData(hs, |hs|);
    AtSplit(image, node, Encode(|hs|, 2), Encode(InternalHeader(|hs|), 8) + (Encode(|hs[0].left|, 8) + tail));
    AtSplit(image, node + 2, Encode(InternalHeader(|hs|), 8), Encode(|hs[0].left|, 8) + tail);
    AtSplit(image, node + 10, Encode(|hs[0].left|, 8), tail);
    AtSplit(image, node + 18, ChildRecords(hs, |hs|), ChildData(hs, |hs|));
  }

  lemma ChildFieldsAt(image: Bytes, rec: nat, hs: seq<Handle>, i: nat)
    requires i < |hs| && At(image, rec, ChildRecord(hs, i))
    requires HandleFits(hs[i]) && |InternalImage(hs)| < U64_LIMIT
    requires |ChildData(hs, i)| + |hs[i].right| + |hs[i].reduced| <= |ChildData(hs, |hs|)|
    ensures ReadUint(image, rec, 8) == InternalHeader(|hs|) + |ChildData(hs, i)|
    ensures ReadUint(image, rec + 8, 8) == |hs[i].right|
    ensures ReadUint(image, rec + 16, 8) == |hs[i].reduced|
    ensures ReadUint(image, rec + 24, 8) == hs[i].start
    ensures ReadUint(image, rec + 32, 8) == hs[i].offset
    ensures ReadUint(image, rec + 40, 8) == hs[i].size
  {
    hide At, Encode, Decode, ReadUint, ChildData, ChildRecords, Limit;
    Limits();
    var data := InternalHeader(|hs|) + |ChildData(hs, i)|;
    var f5 := Encode(hs[i].size, 8);
    var f4 := Encode(hs[i].offset, 8) + f5;
    var f3 := Encode(hs[i].start, 8) + f4;
    var f2 := Encode(|hs[i].reduced|, 8) + f3;
    var f1 := Encode(|hs[i].right|, 8) + f2;
    AtSplit(image, rec, Encode(data, 8), f1);
    AtSplit(image, rec + 8, Encode(|hs[i].right|, 8), f2);
    AtSplit(image, rec + 16, Encode(|hs[i].reduced|, 8), f3);
    AtSplit(image, rec + 24, Encode(hs[i].start, 8), f4);
    AtSplit(image, rec + 32, Encode(hs[i].offset, 8), f5);
    AtUint(image, rec, data, 8);
    AtUint(image, rec + 8, |hs[i].right|, 8);
    AtUint(image, rec + 16, |hs[i].reduced|, 8);
    AtUint(image, rec + 24, hs[i].start, 8);
    AtUint(image, rec + 32, hs[i].offset, 8);
    AtUint(image, rec + 40, hs[i].size, 8);
  }

  /** Field readers invert the internal-node layout. */
  lemma InternalReads(image: Bytes, node: nat, hs: seq<Handle>, i: nat)
    requires i < |hs| < U16_LIMIT && At(image, node, InternalImage(hs))
    requires |InternalImage(hs)| < U64_LIMIT && HandleFits(hs[i])
    ensures InternalCount(image, node) == |hs|
    ensures LeftKey(image, node) == hs[0].left
    ensures RightKey(image, node, i) == hs[i].right
    ensures ReducedValue(image, node, i) == hs[i].reduced
    ensures ChildEntryStart(image, node, i) == hs[i].start
    ensures ChildOffset(image, node, i) == hs[i].offset
    ensures ChildSize(image, node, i) == hs[i].size
  {
    hide At, Encode, Decode, ReadUint, Slice, ChildRecords, ChildRecord, ChildData, Limit;
    Limits();
    InternalParts(image, node, hs);
    AtUint(image, node, |hs|, 2);
    AtUint(image, node + 2, InternalHeader(|hs|), 8);
    ChildDataAt(hs, |hs|, i);
    AtUint(image, node + 10, |hs[0].left|, 8);
    AtWithin(image, node + InternalHeader(|hs|), ChildData(hs, |hs|), 0, hs[0].left);
    AtSlice(image, node + InternalHeader(|hs|), hs[0].left);
    ChildRecordAt(hs, |hs|, i);
    AtWithin(image, node + 18, ChildRecords(hs, |hs|), CHILD_RECORD * i, ChildRecord(hs, i));
    ChildFieldsAt(image, node + 18 + CHILD_RECORD * i, hs, i);
    var data := InternalHeader(|hs|) + |ChildData(hs, i)|;
    AtWithin(image, node + InternalHeader(|hs|), ChildData(hs, |hs|), |ChildData(hs, i)|, hs[i].right + hs[i].reduced);
    AtSplit(image, node + data, hs[i].right, hs[i].reduced);
    AtSlice(image, node + data, hs[i].right);
    AtSlice(image, node + data + |hs[i].right|, hs[i].reduced);
  }

  /** An internal node ends where its last child's reduced value ends. */
  lemma InternalReadsSize(image: Bytes, node: nat, hs: seq<Handle>)
    requires 0 < |hs| < U16_LIMIT && At(image, node, InternalImage(hs))
    requires |InternalImage(hs)| < U64_LIMIT && HandleFits(hs[|hs| - 1])
    ensures InternalSize(image, node) == |InternalImage(hs)|
  {
    hide At, Encode, Decode, ReadUint, Slice, ChildRecords, ChildRecord, Limit;
    var last := |hs| - 1;
    InternalReads(image, node, hs, last);
    InternalParts(image, node, hs);
    ChildRecordAt(hs, |hs|, last);
    AtWithin(image, node + 18, ChildRecords(hs, |hs|), CHILD_RECORD * last, ChildRecord(hs, last));
    ChildFieldsAt(image, node + 18 + CHILD_RECORD * last, hs, last);
  }

  /** Write-only internal node. */
  class NodeInternalBuilder {
    var numChildren: nat
    var dataOffsets: seq<nat>
    var keySizes: seq<nat>
    var reducedValueSizes: seq<nat>
    var childEntryStarts: seq<nat>
    var childOffsets: seq<nat>
    var childSizes: seq<nat>
    var data: Bytes
    ghost var children: seq<Handle>

    ghost predicate Valid()
      reads this
    {
      && numChildren == |children| % U16_LIMIT
      && |reducedValueSizes| == |childEntryStarts| == |childOffsets| == |childSizes| == |children|
      && if children == [] then dataOffsets == keySizes == [] && data == [] else
           && |dataOffsets| == |keySizes| == |children| + 1
           && dataOffsets[0] == 0 && keySizes[0] == |children[0].left|
           && data == ChildData(children, |children|)
           && (forall i :: 0 <= i < |children| ==>
                && dataOffsets[i + 1] == |ChildData(children, i)|
                && keySizes[i + 1] == |children[i].right|
                && reducedValueSizes[i] == |children[i].reduced|
                && childEntryStarts[i] == children[i].start
                && childOffsets[i] == children[i].offset
                && childSizes[i] == children[i].size)
    }

    constructor ()
      ensures Valid() && children == []
    {
      numChildren, dataOffsets, keySizes, reducedValueSizes := 0, [], [], [];
      childEntryStarts, childOffsets, childSizes, data := [], [], [], [];
      children := [];
    }

    method AddFirstChild(left: Bytes, right: Bytes, reduced: Bytes, start: nat, offset: nat, size: nat)
      requires Valid() && children == []
      modifies this
      ensures Valid() && children == [Handle(start, offset, size, left, right, reduced)]
    {
      dataOffsets := dataOffsets + [|data|];
      keySizes := keySizes + [|left|];
      data := data + left;
      PushChild(right, reduced, start, offset, size);
      children := [Handle(start, offset, size, left, right, reduced)];
      assert ChildData(children, 0) == left;
    }

    method AddChild(right: Bytes, reduced: Bytes, start: nat, offset: nat, size: nat, ghost left: Bytes)
      requires Valid() && children != []
      modifies this
      ensures Valid() && children == old(children) + [Handle(start, offset, size, left, right, reduced)]
    {
      hide ChildData;
      ghost var before, h := children, Handle(start, offset, size, left, right, reduced);
      ChildDataPush(before, h);
      WrapIncrement(|before|);
      PushChild(right, reduced, start, offset, size);
      children := before + [h];
      assert forall i :: 0 <= i < |before| ==> children[i] == before[i];
      assert dataOffsets[|before| + 1] == |ChildData(children, |before|)|;
    }

    // The part of `add_child` both entry points share.
    method PushChild(right: Bytes, reduced: Bytes, start: nat, offset: nat, size: nat)
      modifies this
      ensures children == old(children) && numChildren == (old(numChildren) + 1) % U16_LIMIT
      ensures dataOffsets == old(dataOffsets) + [|old(data)|] && keySizes == old(keySizes) + [|right|]
      ensures reducedValueSizes == old(reducedValueSizes) + [|reduced|]
      ensures childEntryStarts == old(childEntryStarts) + [start]
      ensures childOffsets == old(childOffsets) + [offset] && childSizes == old(childSizes) + [size]
      ensures data == old(data) + (right + reduced)
    {
      numChildren := (numChildren + 1) % U16_LIMIT;
      dataOffsets := dataOffsets + [|data|];
      keySizes := keySizes + [|right|];
      reducedValueSizes := reducedValueSizes + [|reduced|];
      childEntryStarts := childEntryStarts + [start];
      childOffsets := childOffsets + [offset];
      childSizes := childSizes + [size];
      data := data + (right + reduced);
    }

    method Clear()
      modifies this
      ensures Valid() && children == []
    {
      numChildren, dataOffsets, keySizes, reducedValueSizes := 0, [], [], [];
      childEntryStarts, childOffsets, childSizes, data := [], [], [], [];
      children := [];
    }

    method Write() returns (image: Bytes)
      requires Valid() && 0 < |children| < U16_LIMIT
      ensures image == InternalImage(children)
    {
      hide Encode, ChildData;
      var header := 2 + 2 * 8 + 6 * 8 * numChildren;
      image := Encode(numChildren, 2) + (Encode(dataOffsets[0] + header, 8) + Encode(keySizes[0], 8));
      ghost var prefix := image;
      for i := 0 to numChildren
        invariant image == prefix + ChildRecords(children, i)
      {
        var record := Encode(dataOffsets[i + 1] + header, 8) + (Encode(keySizes[i + 1], 8)
            + (Encode(reducedValueSizes[i], 8) + (Encode(childEntryStarts[i], 8)
            + (Encode(childOffsets[i], 8) + Encode(childSizes[i], 8)))));
        assert record == ChildRecord(children, i);
        Assoc(prefix, ChildRecords(children, i), record);
        image := image + record;
      }
      assert numChildren == |children|;
      Assoc(prefix, ChildRecords(children, |children|), data);
      Assoc(Encode(|children|, 2), Encode(InternalHeader(|children|), 8) + Encode(|children[0].left|, 8),
            ChildRecords(children, |children|) + data);
      Assoc(Encode(InternalHeader(|children|), 8), Encode(|children[0].left|, 8),
          ChildRecords(children, |children|) + data);
      image := image + data;
    }
  }

  lemma ChildDataPush(hs: seq<Handle>, h: Handle)
    requires 0 < |hs|
    ensures ChildData(hs + [h], |hs| + 1) == ChildData(hs, |hs|) + (h.right + h.reduced)
    ensures forall i :: 0 <= i <= |hs| ==> ChildData(hs + [h], i) == ChildData(hs, i)
  {
    forall i | 0 <= i <= |hs| ensures ChildData(hs + [h], i) == ChildData(hs, i) {
      ChildDataPrefix(hs, hs + [h], i);
    }
  }

  lemma {:induction false} ChildDataPrefix(hs: seq<Handle>, longer: seq<Handle>, count: nat)
    requires 0 < |hs| && hs <= longer && count <= |hs|
    ensures ChildData(longer, count) == ChildData(hs, count)
  {
    if count > 0 {
      ChildDataPrefix(hs, longer, count - 1);
    }
  }

  // ---------------------------------------------------------------- footer

  const FOOTER_SIZE: nat := 42
  const MAGIC: nat := 0x1EAF1111
  const VERSION_MAJOR: nat := 0
  const VERSION_MINOR: nat := 1

  datatype Footer = Footer(rootOffset: nat, rootSize: nat, treeHeight: nat, globalStart: nat, globalEnd: nat,
                           versionMajor: nat, versionMinor: nat, magic: nat)
  {
    predicate Validate() {
      magic == MAGIC && versionMajor == VERSION_MAJOR && versionMinor == VERSION_MINOR
    }

    predicate Fits() {
      && rootOffset < U64_LIMIT && rootSize < U64_LIMIT && treeHeight < U16_LIMIT
      && globalStart < U64_LIMIT && globalEnd < U64_LIMIT
      && versionMajor < U16_LIMIT && versionMinor < U16_LIMIT && magic < U32_LIMIT
    }
  }

  function FooterImage(f: Footer): (b: Bytes)
    ensures |b| == FOOTER_SIZE
  {
    Encode(f.rootOffset, 8) + (Encode(f.rootSize, 8) + (Encode(f.treeHeight, 2) + (Encode(f.globalStart, 8)
    + (Encode(f.globalEnd, 8) + (Encode(f.versionMajor, 2) + (Encode(f.versionMinor, 2) + Encode(f.magic, 4)))))))
  }

  function ReadFooter(image: Bytes, at: nat): Footer {
    Footer(ReadUint(image, at, 8), ReadUint(image, at + 8, 8), ReadUint(image, at + 16, 2),
           ReadUint(image, at + 18, 8), ReadUint(image, at + 26, 8),
           ReadUint(image, at + 34, 2), ReadUint(image, at + 36, 2), ReadUint(image, at + 38, 4))
  }

  /** Reading the footer inverts writing it, for every footer whose fields fit. */
  lemma FooterRoundTrip(image: Bytes, at: nat, f: Footer)
    requires At(image, at, FooterImage(f)) && f.Fits()
    ensures ReadFooter(image, at) == f
  {
    Limits();
    var f7 := Encode(f.magic, 4);
    var f6 := Encode(f.versionMinor, 2) + f7;
    var f5 := Encode(f.versionMajor, 2) + f6;
    var f4 := Encode(f.globalEnd, 8) + f5;
    var f3 := Encode(f.globalStart, 8) + f4;
    var f2 := Encode(f.treeHeight, 2) + f3;
    var f1 := Encode(f.rootSize, 8) + f2;
    AtSplit(image, at, Encode(f.rootOffset, 8), f1);
    AtSplit(image, at + 8, Encode(f.rootSize, 8), f2);
    AtSplit(image, at + 16, Encode(f.treeHeight, 2), f3);
    AtSplit(image, at + 18, Encode(f.globalStart, 8), f4);
    AtSplit(image, at + 26, Encode(f.globalEnd, 8), f5);
    AtSplit(image, at + 34, Encode(f.versionMajor, 2), f6);
    AtSplit(image, at + 36, Encode(f.versionMinor, 2), f7);
    AtUint(image, at, f.rootOffset, 8);
    AtUint(image, at + 8, f.rootSize, 8);
    AtUint(image, at + 16, f.treeHeight, 2);
    AtUint(image, at + 18, f.globalStart, 8);
    AtUint(image, at + 26, f.globalEnd, 8);
    AtUint(image, at + 34, f.versionMajor, 2);
    AtUint(image, at + 36, f.versionMinor, 2);
    AtUint(image, at + 38, f.magic, 4);
  }
}
