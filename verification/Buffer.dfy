// The in-memory write buffer: a sorted multimap with equal keys in insertion order, and its byte count.
module Buffering {
  import opened Bytes
  import opened Entries

  /** Insertion at the upper bound of the key, where a multimap puts a new element. */
  function InsertLast(es: seq<Entry>, e: Entry): (r: seq<Entry>)
    ensures |r| == |es| + 1
  {
    if es == [] then [e]
    else if Less(e.key, es[0].key) then [e] + es
    else [es[0]] + InsertLast(es[1..], e)
  }

  function DataSize(es: seq<Entry>): nat {
    if es == [] then 0 else |es[0].key| + |es[0].value| + DataSize(es[1..])
  }

  lemma {:induction false} InsertPermutes(es: seq<Entry>, e: Entry)
    ensures multiset(InsertLast(es, e)) == multiset(es) + multiset{e}
    ensures DataSize(InsertLast(es, e)) == DataSize(es) + |e.key| + |e.value|
  {
    if es != [] {
      assert es == [es[0]] + es[1..];
      if !Less(e.key, es[0].key) {
        InsertPermutes(es[1..], e);
        assert InsertLast(es, e)[1..] == InsertLast(es[1..], e);
      } else {
        assert InsertLast(es, e)[1..] == es;
      }
    }
  }

  /** A sorted buffer stays sorted, and the new entry comes after all entries with the same key. */
  lemma {:induction false} InsertStable(es: seq<Entry>, e: Entry)
    requires Sorted(es)
    ensures Sorted(InsertLast(es, e))
    ensures forall k :: OfKey(InsertLast(es, e), k) == OfKey(es, k) + (if e.key == k then [e] else [])
  {
    hide Less;
    LessIrreflexive(e.key);
    if es == [] {
      assert forall k :: OfKey([e], k) == if e.key == k then [e] else [];
    } else if Less(e.key, es[0].key) {
      InsertFront(es, e);
    } else {
      InsertStable(es[1..], e);
      InsertBehind(es, e, InsertLast(es[1..], e));
    }
  }

  lemma InsertFront(es: seq<Entry>, e: Entry)
    requires Sorted(es) && es != [] && Less(e.key, es[0].key)
    ensures Sorted([e] + es)
    ensures forall k :: OfKey([e] + es, k) == OfKey(es, k) + (if e.key == k then [e] else [])
  {
    hide Less;
    LessIrreflexive(e.key);
    forall i | 0 <= i < |es| ensures AtMost(e.key, es[i].key) && es[i].key != e.key {
      LessAtMost(e.key, es[0].key);
      if i > 0 { Chain(e.key, es[0].key, es[i].key); }
    }
    NoneOfKey(es, e.key);
    forall k ensures OfKey([e] + es, k) == OfKey(es, k) + (if e.key == k then [e] else []) {
      assert ([e] + es)[1..] == es;
    }
  }

  lemma {:induction false} InsertBehind(es: seq<Entry>, e: Entry, r: seq<Entry>)
    requires Sorted(es) && es != [] && AtMost(es[0].key, e.key)
    requires Sorted(r) && r == InsertLast(es[1..], e)
    requires forall k :: OfKey(r, k) == OfKey(es[1..], k) + (if e.key == k then [e] else [])
    ensures Sorted([es[0]] + r)
    ensures forall k :: OfKey([es[0]] + r, k) == OfKey(es, k) + (if e.key == k then [e] else [])
  {
    hide Less, InsertLast;
    var h := es[0];
    InsertPermutes(es[1..], e);
    forall i | 0 <= i < |r| ensures AtMost(h.key, r[i].key) {
      assert r[i] in multiset(r);
      assert r[i] == e || r[i] in es[1..];
    }
    forall k ensures OfKey([h] + r, k) == OfKey(es, k) + (if e.key == k then [e] else []) {
      assert ([h] + r)[1..] == r;
    }
  }

  /** The buffered entries of each key are in insertion order. */
  function InsertAll(adds: seq<Entry>): seq<Entry> {
    if adds == [] then [] else InsertLast(InsertAll(adds[..|adds| - 1]), adds[|adds| - 1])
  }

  /** The buffer is the stable sort of everything inserted since it was cleared. */
  lemma {:induction false} BufferIsStableSort(adds: seq<Entry>)
    ensures Sorted(InsertAll(adds)) && multiset(InsertAll(adds)) == multiset(adds)
    ensures forall k :: OfKey(InsertAll(adds), k) == OfKey(adds, k)
  {
    hide Less, InsertLast, Sorted, OfKey;
    if adds != [] {
      var front, e := adds[..|adds| - 1], adds[|adds| - 1];
      BufferIsStableSort(front);
      InsertPermutes(InsertAll(front), e);
      InsertStable(InsertAll(front), e);
      assert adds == front + [e];
      forall k ensures OfKey(InsertAll(adds), k) == OfKey(adds, k) {
        OfKeyConcat(front, [e], k);
        OfKeyOne(e, k);
      }
    } else {
      SortedEmpty();
    }
  }

  lemma OfKeyOne(e: Entry, k: Bytes)
    ensures OfKey([e], k) == if e.key == k then [e] else []
  {
  }

  lemma SortedEmpty()
    ensures Sorted([])
  {
  }

  /** With non-empty keys a byte count of zero means an empty buffer; in general only entries without any byte are
      missed. */
  lemma {:induction false} SizeZero(es: seq<Entry>)
    ensures DataSize(es) == 0 <==> forall i :: 0 <= i < |es| ==> es[i].key == [] && es[i].value == []
    ensures NonEmptyKeys(es) ==> (DataSize(es) == 0 <==> es == [])
  {
    if es != [] {
      SizeZero(es[1..]);
      assert forall i :: 0 <= i < |es[1..]| ==> es[1..][i] == es[i + 1];
      if DataSize(es) == 0 {
        forall i | 0 <= i < |es| ensures es[i].key == [] && es[i].value == [] {
          if i > 0 { assert es[i] == es[1..][i - 1]; }
        }
      }
    }
  }

  class Buffer {
    var entries: seq<Entry>
    var size: nat

    ghost predicate Valid()
      reads this
    {
      Sorted(entries) && size == DataSize(entries)
    }

    constructor ()
      ensures Valid() && entries == []
    {
      entries, size := [], 0;
    }

    method Insert(key: Bytes, value: Bytes)
      requires Valid()
      modifies this
      ensures Valid() && entries == InsertLast(old(entries), Entry(key, value))
      ensures forall k :: OfKey(entries, k) == OfKey(old(entries), k) + (if key == k then [Entry(key, value)] else [])
    {
      InsertStable(entries, Entry(key, value));
      InsertPermutes(entries, Entry(key, value));
      size := size + |key| + |value|;
      entries := InsertLast(entries, Entry(key, value));
    }

    method Clear()
      modifies this
      ensures Valid() && entries == []
    {
      entries, size := [], 0;
    }

    function GetSize(): nat
      reads this
    {
      size
    }

    function GetCount(): nat
      reads this
    {
      |entries|
    }
  }
}
