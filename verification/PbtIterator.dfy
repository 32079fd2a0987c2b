// The iterator of one file: it steps from leaf to leaf by the size of the leaf it stands on.
module PbtIteration {
  import opened Bytes
  import opened Entries
  import opened Grouping
  import opened Structures
  import opened Packing

  /** The leaves of `es` lie one after the other from offset 0, in an image addressable with 64 bits. */
  ghost predicate LeavesReadable(image: Bytes, es: seq<Entry>, cfg: WriterConfig) {
    cfg.Allowed() && |image| < U64_LIMIT && At(image, 0, LeafRegion(Groups(es, cfg)))
  }

  ghost function LeafCountOf(es: seq<Entry>, cfg: WriterConfig): nat
    requires cfg.Allowed()
  {
    DivCeil(|es|, cfg.maxNodeChildren)
  }

  ghost function LeafOffset(es: seq<Entry>, cfg: WriterConfig, j: nat): nat
    requires cfg.Allowed()
  {
    if j <= |Groups(es, cfg)| then |LeafRegion(Groups(es, cfg)[..j])| else 0
  }

  ghost function LeafEntries(es: seq<Entry>, cfg: WriterConfig, j: nat): seq<Entry>
    requires cfg.Allowed() && j < LeafCountOf(es, cfg)
  {
    Chunk(es, cfg.maxNodeChildren, j)
  }

  /** Leaf `j` is where the sizes of the leaves before it put it; the next one follows at once. */
  lemma LeafChain(image: Bytes, es: seq<Entry>, cfg: WriterConfig, j: nat)
    requires LeavesReadable(image, es, cfg) && j < LeafCountOf(es, cfg)
    ensures LeafOffset(es, cfg, 0) == 0
    ensures At(image, LeafOffset(es, cfg, j), LeafImage(LeafEntries(es, cfg, j)))
    ensures LeafOffset(es, cfg, j + 1) == LeafOffset(es, cfg, j) + LeafSize(image, LeafOffset(es, cfg, j))
    ensures LeafCount(image, LeafOffset(es, cfg, j)) == |LeafEntries(es, cfg, j)|
    ensures forall i :: 0 <= i < |LeafEntries(es, cfg, j)| ==>
              && LeafKey(image, LeafOffset(es, cfg, j), i) == LeafEntries(es, cfg, j)[i].key
              && LeafValue(image, LeafOffset(es, cfg, j), i) == LeafEntries(es, cfg, j)[i].value
  {
    hide Chunks, LeafHandle, LeafImage, LeafKey, LeafValue, LeafSize, LeafCount, At, DivCeil, Chunk;
    var cs := Groups(es, cfg);
    ChunksAt(es, cfg.maxNodeChildren);
    LeafLevelAt(cs, cfg, j);
    var at, c := LeafOffset(es, cfg, j), LeafEntries(es, cfg, j);
    assert cs[..j + 1][..j] == cs[..j];
    AtWithin(image, 0, LeafRegion(cs), at, LeafImage(cs[j]));
    LeafAddressable(image, at, c);
    forall i | 0 <= i < |c| ensures LeafKey(image, at, i) == c[i].key && LeafValue(image, at, i) == c[i].value {
      LeafReads(image, at, c, i);
    }
    LeafReads(image, at, c, 0);
  }

  lemma LeafAddressable(image: Bytes, at: nat, c: seq<Entry>)
    requires At(image, at, LeafImage(c))
    ensures at + |LeafImage(c)| <= |image|
  {
  }

  ghost function LeafOf(cfg: WriterConfig, pos: nat): nat
    requires cfg.Allowed()
  {
    pos / cfg.maxNodeChildren
  }

  ghost function IndexInLeaf(cfg: WriterConfig, pos: nat): nat
    requires cfg.Allowed()
  {
    pos % cfg.maxNodeChildren
  }

  /** Where entry `pos` lies, and where the one after it does. */
  lemma Locate(es: seq<Entry>, cfg: WriterConfig, pos: nat)
    requires cfg.Allowed() && pos < |es|
    ensures var j, i := LeafOf(cfg, pos), IndexInLeaf(cfg, pos);
            && j < LeafCountOf(es, cfg) && i < |LeafEntries(es, cfg, j)| && LeafEntries(es, cfg, j)[i] == es[pos]
            && (if i + 1 < |LeafEntries(es, cfg, j)|
                then LeafOf(cfg, pos + 1) == j && IndexInLeaf(cfg, pos + 1) == i + 1
                else pos + 1 < |es| ==> LeafOf(cfg, pos + 1) == j + 1 && IndexInLeaf(cfg, pos + 1) == 0)
  {
    hide DivCeil, LeafEntries;
    var b := cfg.maxNodeChildren;
    var j, i := LeafOf(cfg, pos), IndexInLeaf(cfg, pos);
    DivMod(pos, b);
    LocateArithmetic(|es|, b, j, i);
    LeafEntriesSlice(es, cfg, j);
    hide *;
  }

  lemma LeafEntriesSlice(es: seq<Entry>, cfg: WriterConfig, j: nat)
    requires cfg.Allowed() && j < LeafCountOf(es, cfg)
    ensures |LeafEntries(es, cfg, j)| == Min((j + 1) * cfg.maxNodeChildren, |es|) - j * cfg.maxNodeChildren
    ensures forall i :: 0 <= i < |LeafEntries(es, cfg, j)| ==>
            LeafEntries(es, cfg, j)[i] == es[j * cfg.maxNodeChildren + i]
  {
    ChunkBounds(|es|, cfg.maxNodeChildren, j);
  }

  lemma LocateArithmetic(n: nat, b: nat, j: nat, i: nat)
    requires b > 0 && i < b && j * b + i < n
    ensures j < DivCeil(n, b) && i < Min((j + 1) * b, n) - j * b
    ensures if i + 1 < Min((j + 1) * b, n) - j * b
            then (j * b + i + 1) / b == j && (j * b + i + 1) % b == i + 1
            else j * b + i + 1 < n ==> (j * b + i + 1) / b == j + 1 && (j * b + i + 1) % b == 0
  {
    DivCeilBounds(n, b);
    Monotone(DivCeil(n, b), j, b);
    hide DivCeil;
    ChunkBounds(n, b, j);
    if i + 1 < Min((j + 1) * b, n) - j * b {
      QuotientIs(j * b + i + 1, b, j);
    } else if j * b + i + 1 < n {
      QuotientIs(j * b + i + 1, b, j + 1);
    }
  }

  /** Address and index of the current entry, `remaining` entries before the end. */
  ghost predicate Placed(image: Bytes, es: seq<Entry>, cfg: WriterConfig, remaining: nat, node: nat, index: nat,
          count: nat)
    requires cfg.Allowed()
  {
    && remaining <= |es|
    && (remaining > 0 ==>
         && node == LeafOffset(es, cfg, LeafOf(cfg, |es| - remaining))
         && index == IndexInLeaf(cfg, |es| - remaining)
         && count == LeafCount(image, node))
  }

  lemma Exhausted(image: Bytes, es: seq<Entry>, cfg: WriterConfig)
    requires LeavesReadable(image, es, cfg)
    ensures cfg.Allowed() && forall node, index, count :: Placed(image, es, cfg, 0, node, index, count)
  {
  }

  /** The next entry is in the same leaf, or it is the first one of the leaf that starts where this one ends. */
  lemma NextPlace(image: Bytes, es: seq<Entry>, cfg: WriterConfig, remaining: nat, node: nat, index: nat, count: nat)
    requires LeavesReadable(image, es, cfg) && Placed(image, es, cfg, remaining, node, index, count) && remaining > 0
    ensures remaining <= |es| && es[|es| - remaining..][1..] == es[|es| - remaining + 1..]
    ensures index + 1 < count ==> Placed(image, es, cfg, remaining - 1, node, index + 1, count)
    ensures index + 1 >= count ==>
              var next := node + LeafSize(image, node);
              Placed(image, es, cfg, remaining - 1, next, 0, LeafCount(image, next))
  {
    hide LeafOf, IndexInLeaf, LeafOffset, LeafSize, LeafEntries, LeafCount, LeafCountOf, LeafKey, LeafValue, LeafImage;
    hide At;
    Locate(es, cfg, |es| - remaining);
    LeafChain(image, es, cfg, LeafOf(cfg, |es| - remaining));
  }

  class PbtIterator {
    const image: Bytes
    var nodeAddress: nat
    var entryIndex: nat
    var remaining: nat
    var numChildren: nat
    ghost const es: seq<Entry>
    ghost const cfg: WriterConfig

    ghost predicate Valid()
      reads this
    {
      LeavesReadable(image, es, cfg) && Placed(image, es, cfg, remaining, nodeAddress, entryIndex, numChildren)
    }

    /** The entries still to come, the current one first. */
    ghost function Rest(): seq<Entry>
      requires Valid()
      reads this
    {
      es[|es| - remaining..]
    }

    /** The iterator stands on entry `at` of `all` (or past the end), with the rest still to come. */
    ghost predicate Stands(all: seq<Entry>, at: nat)
      reads this
      ensures Stands(all, at) ==> Valid() && at <= |all| && Rest() == all[at..]
    {
      Valid() && es == all && at <= |all| && remaining == |all| - at
    }

    /** `numChildren` is read only when there is an entry to stand on. */
    constructor (image: Bytes, nodeAddress: nat, entryIndex: nat, remaining: nat, ghost es: seq<Entry>,
            ghost cfg: WriterConfig)
      requires LeavesReadable(image, es, cfg) && remaining <= |es|
      requires remaining > 0 ==>
                 && nodeAddress == LeafOffset(es, cfg, LeafOf(cfg, |es| - remaining))
                 && entryIndex == IndexInLeaf(cfg, |es| - remaining)
      ensures Valid() && Rest() == es[|es| - remaining..] && this.remaining == remaining
      ensures this.image == image && this.es == es && this.cfg == cfg
    {
      this.image, this.nodeAddress, this.entryIndex, this.remaining := image, nodeAddress, entryIndex, remaining;
      this.es, this.cfg := es, cfg;
      numChildren := if remaining >= 1 then LeafCount(image, nodeAddress) else 0;
    }

    constructor Copy(other: PbtIterator)
      requires other.Valid()
      ensures Valid() && Rest() == other.Rest() && remaining == other.remaining && image == other.image
              && es == other.es && cfg == other.cfg
    {
      image, nodeAddress, entryIndex, remaining := other.image, other.nodeAddress, other.entryIndex, other.remaining;
      numChildren, es, cfg := other.numChildren, other.es, other.cfg;
    }

    predicate IsEnd()
      reads this
    {
      remaining <= 0
    }

    lemma AtEnd()
      requires Valid()
      ensures IsEnd() <==> Rest() == []
    {
    }

    function GetKey(): (k: Bytes)
      requires Valid()
      reads this
      ensures Rest() != [] ==> k == Rest()[0].key
    {
      CurrentEntry();
      LeafKey(image, nodeAddress, entryIndex)
    }

    function GetValue(): (v: Bytes)
      requires Valid()
      reads this
      ensures Rest() != [] ==> v == Rest()[0].value
    {
      CurrentEntry();
      LeafValue(image, nodeAddress, entryIndex)
    }

    lemma CurrentEntry()
      requires Valid()
      ensures remaining > 0 ==>
                && LeafKey(image, nodeAddress, entryIndex) == Rest()[0].key
                && LeafValue(image, nodeAddress, entryIndex) == Rest()[0].value
    {
      hide LeafKey, LeafValue, LeafCount, LeafOf, IndexInLeaf, LeafOffset, LeafEntries, LeafCountOf, At;
      if remaining > 0 {
        Locate(es, cfg, |es| - remaining);
        LeafChain(image, es, cfg, LeafOf(cfg, |es| - remaining));
      }
    }

    /** One step drops exactly the current entry, across leaf boundaries too. */
    method Next()
      requires Valid() && !IsEnd()
      modifies this
      ensures Valid() && Rest() == old(Rest())[1..] && remaining == old(remaining) - 1
    {
      hide LeafSize, LeafCount, Placed, LeavesReadable;
      NextPlace(image, es, cfg, remaining, nodeAddress, entryIndex, numChildren);
      Exhausted(image, es, cfg);
      entryIndex := entryIndex + 1;
      remaining := remaining - 1;
      if entryIndex >= numChildren {
        entryIndex := 0;
        if remaining >= 1 {
          nodeAddress := nodeAddress + LeafSize(image, nodeAddress);
          numChildren := LeafCount(image, nodeAddress);
        }
      }
    }
  }
}
