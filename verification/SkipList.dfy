// The skip list: linked lists stacked on each other, kept as a stable sorted multimap whatever levels are drawn.
module SkipLists {
  import opened Bytes
  import opened Entries
  import opened Buffering

  const MAX_LEVEL: nat := 32

  /** A list element: at level 0 it holds a value, above it an iterator to its element one level down. */
  datatype Payload = Data(value: Bytes) | Down(node: Node)

  /** An element keeps its identity while others are inserted around it, as list iterators do. */
  class Node {
    const key: Bytes
    const payload: Payload

    constructor (key: Bytes, payload: Payload)
      ensures this.key == key && this.payload == payload
    {
      this.key, this.payload := key, payload;
    }
  }

  type List = seq<Node>

  function InsertAt(list: List, p: nat, n: Node): List
    requires p <= |list|
  {
    list[..p] + [n] + list[p..]
  }

  function Position(list: List, n: Node): (p: nat)
    requires n in list
    ensures p < |list| && list[p] == n && n !in list[..p]
  {
    if list[0] == n then 0 else 1 + Position(list[1..], n)
  }

  /** Keys in front of the place looked for: below the key, or not above it when looking for the last place. */
  predicate Before(last: bool, k: Bytes, key: Bytes) {
    if last then AtMost(k, key) else Less(k, key)
  }

  ghost predicate IsBound(list: List, last: bool, key: Bytes, p: nat) {
    && p <= |list|
    && (forall i :: 0 <= i < p ==> Before(last, list[i].key, key))
    && (forall i :: p <= i < |list| ==> !Before(last, list[i].key, key))
  }

  ghost predicate SortedNodes(list: List) {
    forall i, j :: 0 <= i < j < |list| ==> AtMost(list[i].key, list[j].key)
  }

  ghost predicate Distinct(list: List) {
    forall i, j :: 0 <= i < j < |list| ==> list[i] != list[j]
  }

  /** The element points down to an element of the list below with the same key. */
  ghost predicate PointsInto(n: Node, lower: List) {
    n.payload.Down? && n.payload.node in lower && n.payload.node.key == n.key
  }

  /** The elements one level down, in the same order. */
  ghost predicate SubList(upper: List, lower: List) {
    && (forall i :: 0 <= i < |upper| ==> PointsInto(upper[i], lower))
    && (forall i, j :: 0 <= i < j < |upper| ==>
         Position(lower, upper[i].payload.node) < Position(lower, upper[j].payload.node))
  }

  ghost predicate Stacked(lists: seq<List>) {
    && 0 < |lists| <= MAX_LEVEL
    && (forall l :: 0 <= l < |lists| ==> SortedNodes(lists[l]) && Distinct(lists[l]))
    && (forall n :: n in lists[0] ==> n.payload.Data?)
    && (forall l :: 0 < l < |lists| ==> SubList(lists[l], lists[l - 1]))
  }

  function EntriesOf(list: List): (es: seq<Entry>)
    ensures |es| == |list|
    ensures forall i :: 0 <= i < |list| ==>
            es[i].key == list[i].key && (list[i].payload.Data? ==> es[i].value == list[i].payload.value)
  {
    seq(|list|, i requires 0 <= i < |list| => Entry(list[i].key, if list[i].payload.Data? then list[i].payload.value
        else []))
  }

  // ---- Searching one level.

  lemma BeforeChain(last: bool, a: Bytes, b: Bytes, key: Bytes)
    requires AtMost(a, b) && Before(last, b, key)
    ensures Before(last, a, key)
  {
    LessTotal(a, b);
    if a != b {
      LessTotal(a, key);
      LessTotal(b, key);
      if Less(key, a) { LessTransitive(key, a, b); }
      if Less(b, key) { LessTransitive(a, b, key); }
      LessIrreflexive(key);
    }
  }

  /** Position of the element below `n`, from which the search goes on one level down: everything up to it is before the
      key. */
  lemma BelowBefore(upper: List, lower: List, n: Node, last: bool, key: Bytes)
    requires SubList(upper, lower) && SortedNodes(lower) && n in upper && Before(last, n.key, key)
    ensures PointsInto(n, lower)
    ensures forall i :: 0 <= i <= Position(lower, n.payload.node) ==> Before(last, lower[i].key, key)
  {
    hide Less;
    var k :| 0 <= k < |upper| && upper[k] == n;
    var p := Position(lower, n.payload.node);
    forall i | 0 <= i <= p ensures Before(last, lower[i].key, key) {
      if i < p { BeforeChain(last, lower[i].key, lower[p].key, key); }
    }
  }

  lemma BelowAfter(upper: List, lower: List, n: Node, last: bool, key: Bytes)
    requires SubList(upper, lower) && SortedNodes(lower) && n in upper && !Before(last, n.key, key)
    ensures PointsInto(n, lower)
    ensures forall i :: Position(lower, n.payload.node) <= i < |lower| ==> !Before(last, lower[i].key, key)
  {
    hide Less;
    var k :| 0 <= k < |upper| && upper[k] == n;
    var p := Position(lower, n.payload.node);
    forall i | p <= i < |lower| ensures !Before(last, lower[i].key, key) {
      if i > p && Before(last, lower[i].key, key) { BeforeChain(last, lower[p].key, lower[i].key, key); }
    }
  }

  /** The loop over one level, between the places known from the level above. */
  method SearchLevel(list: List, last: bool, key: Bytes, begin: nat, end: nat)
    returns (at: nat, prevBegin: Option<Node>, prevEnd: Option<Node>)
    requires begin <= end <= |list|
    requires forall i :: 0 <= i < begin ==> Before(last, list[i].key, key)
    requires forall i :: end <= i < |list| ==> !Before(last, list[i].key, key)
    requires SortedNodes(list)
    ensures at <= |list| && IsBound(list, last, key, at)
    ensures prevBegin.Some? ==> prevBegin.value in list && Before(last, prevBegin.value.key, key)
    ensures prevEnd.Some? ==> prevEnd.value in list && !Before(last, prevEnd.value.key, key)
  {
    hide Less, Before;
    at, prevBegin, prevEnd := begin, None, None;
    while at != end
      invariant begin <= at <= end
      invariant forall i :: 0 <= i < at ==> Before(last, list[i].key, key)
      invariant prevBegin.Some? ==> prevBegin.value in list && Before(last, prevBegin.value.key, key)
    {
      if !Before(last, list[at].key, key) {
        prevEnd := Some(list[at]);
        forall i | at <= i < |list| ensures !Before(last, list[i].key, key) {
          if i > at && Before(last, list[i].key, key) { BeforeChain(last, list[at].key, list[i].key, key); }
        }
        return;
      }
      prevBegin := Some(list[at]);
      at := at + 1;
    }
  }

  lemma BoundFits(list: List, last: bool, key: Bytes, begin: nat, end: nat)
    requires begin <= |list| && end <= |list|
    requires forall i :: 0 <= i < begin ==> Before(last, list[i].key, key)
    requires forall i :: end <= i < |list| ==> !Before(last, list[i].key, key)
    ensures begin <= end
  {
    hide Before;
    if begin > 0 {
      assert Before(last, list[begin - 1].key, key);
      assert begin - 1 < end;
    }
  }

  // ---- Inserting into one level.

  lemma InsertedSorted(list: List, last: bool, p: nat, n: Node)
    requires SortedNodes(list) && Distinct(list) && IsBound(list, last, n.key, p) && n !in list
    ensures SortedNodes(InsertAt(list, p, n)) && Distinct(InsertAt(list, p, n))
  {
    hide Less;
    var r := InsertAt(list, p, n);
    forall i, j | 0 <= i < j < |r| ensures AtMost(r[i].key, r[j].key) && r[i] != r[j] {
      if j == p {
        LessTotal(list[i].key, n.key);
        LessIrreflexive(n.key);
      } else if i == p {
        LessTotal(n.key, list[j - 1].key);
        LessIrreflexive(n.key);
      }
    }
  }

  lemma PositionIs(list: List, n: Node, p: nat)
    requires Distinct(list) && p < |list| && list[p] == n
    ensures Position(list, n) == p
  {
    var q := Position(list, n);
    assert list[q] == list[p];
  }

  lemma PositionShifts(list: List, p: nat, n: Node, m: Node)
    requires Distinct(list) && p <= |list| && n !in list && m in list
    ensures m in InsertAt(list, p, n)
    ensures Position(InsertAt(list, p, n), m) == if Position(list, m) < p then Position(list, m)
            else Position(list, m) + 1
  {
    var r := InsertAt(list, p, n);
    var q := Position(list, m);
    InsertedDistinct(list, p, n);
    var q' := if q < p then q else q + 1;
    assert r[q'] == m;
    PositionIs(r, m, q');
  }

  lemma InsertedDistinct(list: List, p: nat, n: Node)
    requires Distinct(list) && p <= |list| && n !in list
    ensures Distinct(InsertAt(list, p, n)) && Position(InsertAt(list, p, n), n) == p
  {
    var r := InsertAt(list, p, n);
    forall i, j | 0 <= i < j < |r| ensures r[i] != r[j] {
    }
    PositionIs(r, n, p);
  }

  /** A list over one that gets an element more, itself unchanged. */
  lemma SubListKept(upper: List, lower: List, p: nat, n: Node)
    requires SubList(upper, lower) && Distinct(lower) && p <= |lower| && n !in lower
    ensures SubList(upper, InsertAt(lower, p, n))
  {
    var r := InsertAt(lower, p, n);
    forall i | 0 <= i < |upper| ensures PointsInto(upper[i], r) {
      PositionShifts(lower, p, n, upper[i].payload.node);
    }
    forall i, j | 0 <= i < j < |upper| ensures Position(r, upper[i].payload.node) < Position(r, upper[j].payload.node) {
      PositionShifts(lower, p, n, upper[i].payload.node);
      PositionShifts(lower, p, n, upper[j].payload.node);
    }
  }

  /** Inserting an element and, one level up, the element that points to it. */
  lemma SubListInserted(upper: List, lower: List, last: bool, key: Bytes, u: nat, p: nat, m: Node, n: Node)
    requires SubList(upper, lower) && SortedNodes(lower) && Distinct(lower) && n !in lower
    requires n.key == m.key == key && m.payload == Down(n)
    requires IsBound(upper, last, key, u) && IsBound(lower, last, key, p)
    ensures SubList(InsertAt(upper, u, m), InsertAt(lower, p, n))
  {
    hide Before, Position;
    var low := InsertAt(lower, p, n);
    InsertedDistinct(lower, p, n);
    SubListKept(upper, lower, p, n);
    assert n in low by { assert low[p] == n; }
    forall i | 0 <= i < |upper|
      ensures i < u ==> Position(low, upper[i].payload.node) < p
      ensures i >= u ==> Position(low, upper[i].payload.node) > p
    {
      BoundBelow(upper, lower, last, key, u, p, i);
      PositionShifts(lower, p, n, upper[i].payload.node);
    }
    OrderedInsert(upper, low, u, m);
  }

  lemma OrderedInsert(upper: List, low: List, u: nat, m: Node)
    requires SubList(upper, low) && u <= |upper| && PointsInto(m, low)
    requires forall i :: 0 <= i < u ==> Position(low, upper[i].payload.node) < Position(low, m.payload.node)
    requires forall i :: u <= i < |upper| ==> Position(low, upper[i].payload.node) > Position(low, m.payload.node)
    ensures SubList(InsertAt(upper, u, m), low)
  {
    hide Position;
    var up := InsertAt(upper, u, m);
    forall i | 0 <= i < |up| ensures PointsInto(up[i], low) {
      if i < u {
        assert up[i] == upper[i];
      } else if i > u {
        assert up[i] == upper[i - 1];
      }
    }
    forall i, j | 0 <= i < j < |up| ensures Position(low, up[i].payload.node) < Position(low, up[j].payload.node) {
      if j <= u {
        assert up[i] == upper[i];
      } else if i < u {
        assert up[i] == upper[i] && up[j] == upper[j - 1];
      } else if i == u {
        assert up[j] == upper[j - 1];
      } else {
        assert up[i] == upper[i - 1] && up[j] == upper[j - 1];
      }
    }
  }

  /** An element is before the place in its list exactly when its element below is before the place there. */
  lemma BoundBelow(upper: List, lower: List, last: bool, key: Bytes, u: nat, p: nat, i: nat)
    requires SubList(upper, lower) && i < |upper|
    requires IsBound(upper, last, key, u) && IsBound(lower, last, key, p)
    ensures PointsInto(upper[i], lower) && (Position(lower, upper[i].payload.node) < p <==> i < u)
  {
    hide Before;
    var q := Position(lower, upper[i].payload.node);
    assert lower[q].key == upper[i].key;
  }

  // ---- Insertion at the other end of a run of equal keys.

  /** Insertion at the lower bound of the key. */
  function InsertFirst(es: seq<Entry>, e: Entry): (r: seq<Entry>)
    ensures |r| == |es| + 1
  {
    if es == [] || AtMost(e.key, es[0].key) then [e] + es else [es[0]] + InsertFirst(es[1..], e)
  }

  lemma {:induction false} InsertFirstIs(es: seq<Entry>, e: Entry, p: nat)
    requires IsLowerBound(es, e.key, p)
    ensures InsertFirst(es, e) == es[..p] + [e] + es[p..]
  {
    hide Less;
    if p > 0 {
      assert Less(es[0].key, e.key);
      forall j | 0 <= j < p - 1 ensures Less(es[1..][j].key, e.key) {
        assert es[1..][j] == es[j + 1];
      }
      InsertFirstIs(es[1..], e, p - 1);
      assert es[..p] == [es[0]] + es[1..][..p - 1] && es[p..] == es[1..][p - 1..];
    }
  }

  lemma {:induction false} InsertLastIs(es: seq<Entry>, e: Entry, p: nat)
    requires IsUpperBound(es, e.key, p)
    ensures InsertLast(es, e) == es[..p] + [e] + es[p..]
  {
    hide Less;
    if p > 0 {
      assert AtMost(es[0].key, e.key);
      forall j | 0 <= j < p - 1 ensures AtMost(es[1..][j].key, e.key) {
        assert es[1..][j] == es[j + 1];
      }
      InsertLastIs(es[1..], e, p - 1);
      assert es[..p] == [es[0]] + es[1..][..p - 1] && es[p..] == es[1..][p - 1..];
    }
  }

  /** The new entry comes before all entries with its key; the others keep their order. */
  lemma InsertFirstStable(es: seq<Entry>, e: Entry, p: nat)
    requires IsLowerBound(es, e.key, p) && Sorted(es)
    ensures Sorted(InsertFirst(es, e))
    ensures forall k :: OfKey(InsertFirst(es, e), k) == (if e.key == k then [e] else []) + OfKey(es, k)
  {
    hide Less, Sorted, IsLowerBound;
    InsertFirstIs(es, e, p);
    PlacedSorted(es, e, p);
    LowerRange(es, e.key, p);
    forall k ensures OfKey(InsertFirst(es, e), k) == (if e.key == k then [e] else []) + OfKey(es, k) {
      assert es == es[..p] + es[p..];
      OfKeyConcat(es[..p], es[p..], k);
      OfKeyConcat(es[..p] + [e], es[p..], k);
      OfKeyConcat(es[..p], [e], k);
      OfKeyOne(e, k);
      if e.key == k {
        BelowAbsent(es, e.key, p);
      }
    }
  }

  lemma LowerRange(es: seq<Entry>, key: Bytes, p: nat)
    requires IsLowerBound(es, key, p)
    ensures p <= |es|
  {
  }

  lemma BelowAbsent(es: seq<Entry>, key: Bytes, p: nat)
    requires IsLowerBound(es, key, p)
    ensures p <= |es| && OfKey(es[..p], key) == []
  {
    LessIrreflexive(key);
    NoneOfKey(es[..p], key);
  }

  lemma PlacedSorted(es: seq<Entry>, e: Entry, p: nat)
    requires IsLowerBound(es, e.key, p) && Sorted(es)
    ensures Sorted(es[..p] + [e] + es[p..])
  {
    hide Less;
    var r := es[..p] + [e] + es[p..];
    forall i, j | 0 <= i < j < |r| ensures AtMost(r[i].key, r[j].key) {
      if j == p { LessAtMost(es[i].key, e.key); }
    }
  }

  lemma LowerBoundExists(es: seq<Entry>, key: Bytes) returns (p: nat)
    requires Sorted(es)
    ensures IsLowerBound(es, key, p)
  {
    hide Less;
    p := 0;
    while p < |es| && Less(es[p].key, key)
      invariant p <= |es| && forall j :: 0 <= j < p ==> Less(es[j].key, key)
    {
      p := p + 1;
    }
    if p < |es| {
      forall j | p <= j < |es| ensures AtMost(key, es[j].key) {
        if j > p && Less(es[j].key, key) {
          LessTotal(es[p].key, es[j].key);
          if es[p].key != es[j].key { LessTransitive(es[p].key, es[j].key, key); }
        }
      }
    }
  }

  // ---- Over all runs.

  datatype Addition = After(entry: Entry) | Ahead(entry: Entry)

  /** The list after a run of additions. */
  function Added(adds: seq<Addition>): seq<Entry> {
    if adds == [] then [] else
      var front := Added(adds[..|adds| - 1]);
      match adds[|adds| - 1]
      case After(e) => InsertLast(front, e)
      case Ahead(e) => InsertFirst(front, e)
  }

  /** What a multimap that adds at either end of a key's values holds for the key. */
  function ValuesFor(adds: seq<Addition>, k: Bytes): seq<Entry> {
    if adds == [] then [] else
      var front := ValuesFor(adds[..|adds| - 1], k);
      match adds[|adds| - 1]
      case After(e) => front + (if e.key == k then [e] else [])
      case Ahead(e) => (if e.key == k then [e] else []) + front
  }

  /** After any run of additions, whatever levels were drawn, the list is sorted and holds for every key its values in
      multimap order. */
  lemma {:induction false} AddedIsMultimap(adds: seq<Addition>)
    ensures Sorted(Added(adds)) && forall k :: OfKey(Added(adds), k) == ValuesFor(adds, k)
  {
    hide InsertLast, InsertFirst;
    if adds != [] {
      var front, e := Added(adds[..|adds| - 1]), adds[|adds| - 1].entry;
      AddedIsMultimap(adds[..|adds| - 1]);
      if adds[|adds| - 1].After? {
        InsertStable(front, e);
      } else {
        var p := LowerBoundExists(front, e.key);
        InsertFirstStable(front, e, p);
      }
    }
  }

  // ---- The object.

  class SkipList {
    var lists: seq<List>
    var size: nat

    ghost predicate Valid()
      reads this
    {
      Stacked(lists) && size == DataSize(EntriesOf(lists[0]))
    }

    /** The entries at level 0, from the first to the last. */
    ghost function Entries(): seq<Entry>
      requires Valid()
      reads this
    {
      EntriesOf(lists[0])
    }

    constructor ()
      ensures Valid() && Entries() == []
    {
      lists, size := [[]], 0;
    }

    /** Empty lists for the levels that are new. The random draw is a parameter. */
    method NewEntryLevel(level: nat)
      requires 1 <= level <= MAX_LEVEL && Stacked(lists)
      modifies this`lists
      ensures Stacked(lists) && |lists| >= level && old(lists) <= lists
    {
      hide SubList, SortedNodes, Distinct;
      while |lists| < level
        invariant Stacked(lists) && old(lists) <= lists
        decreases level - |lists|
      {
        EmptyOnTop(lists);
        lists := lists + [[]];
      }
    }

    /** The place of the key at every level, from the top level down. */
    method Search(last: bool, key: Bytes) returns (result: seq<nat>)
      requires Stacked(lists)
      ensures |result| == |lists| && forall l :: 0 <= l < |lists| ==>
              result[l] <= |lists[l]| && IsBound(lists[l], last, key, result[l])
    {
      hide Less, Before, IsBound, SubList, Position;
      result := [];
      var prevBegin: Option<Node>, prevEnd: Option<Node> := None, None;
      var l: nat := |lists|;
      while l > 0
        invariant l <= |lists| && |result| == |lists| - l
        invariant forall k :: l <= k < |lists| ==>
                  result[k - l] <= |lists[k]| && IsBound(lists[k], last, key, result[k - l])
        invariant prevBegin.Some? ==> l < |lists| && prevBegin.value in lists[l] && Before(last, prevBegin.value.key,
                  key)
        invariant prevEnd.Some? ==> l < |lists| && prevEnd.value in lists[l] && !Before(last, prevEnd.value.key, key)
      {
        l := l - 1;
        var begin: nat, end: nat := 0, |lists[l]|;
        if prevBegin.Some? {
          BelowBefore(lists[l + 1], lists[l], prevBegin.value, last, key);
          begin := Position(lists[l], prevBegin.value.payload.node);
        }
        if prevEnd.Some? {
          BelowAfter(lists[l + 1], lists[l], prevEnd.value, last, key);
          end := Position(lists[l], prevEnd.value.payload.node);
        }
        BoundFits(lists[l], last, key, begin, end);
        var at;
        at, prevBegin, prevEnd := SearchLevel(lists[l], last, key, begin, end);
        result := [at] + result;
      }
    }

    /** Inserts one element per level, each pointing to the one below. */
    method Insert(last: bool, key: Bytes, value: Bytes, level: nat)
      requires Valid() && 1 <= level <= MAX_LEVEL
      modifies this
      ensures Valid()
      ensures Entries() == if last then InsertLast(old(Entries()), Entry(key, value))
              else InsertFirst(old(Entries()), Entry(key, value))
    {
      hide Stacked, IsBound, InsertAt, DataSize, InsertLast, InsertFirst, EntriesOf, Tower;
      LevelZeroSorted(lists);
      NewEntryLevel(level);
      var result := Search(last, key);
      LevelZeroSorted(lists);
      ghost var before, nodes: List := lists, [];
      TowerStarts(lists, result, key, value);
      var payload := Data(value);
      for i := 0 to level
        invariant Tower(before, lists, result, nodes, key, value) && |nodes| == i && size == old(size)
        invariant |lists| == |result| >= level
        invariant payload == if i == 0 then Data(value) else Down(nodes[i - 1])
      {
        var node := new Node(key, payload);
        assert node !in lists[i];
        TowerGrows(before, lists, result, nodes, key, value, node);
        lists := lists[i := InsertAt(lists[i], result[i], node)];
        payload, nodes := Down(node), nodes + [node];
      }
      size := size + |key| + |value|;
      assert before[0] == old(lists)[0];
      TowerStacked(before, lists, result, nodes, last, key, value);
    }

    /** Adds behind all entries with the key, for any level drawn. */
    method AddAfter(key: Bytes, value: Bytes, level: nat)
      requires Valid() && 1 <= level <= MAX_LEVEL
      modifies this
      ensures Valid() && Entries() == InsertLast(old(Entries()), Entry(key, value))
      ensures forall k ::
                OfKey(Entries(), k) == OfKey(old(Entries()), k) + (if key == k then [Entry(key, value)] else [])
    {
      hide Stacked, InsertLast, DataSize;
      LevelZeroSorted(lists);
      InsertStable(Entries(), Entry(key, value));
      Insert(true, key, value, level);
    }

    /** Adds in front of all entries with the key, for any level drawn. */
    method AddBefore(key: Bytes, value: Bytes, level: nat)
      requires Valid() && 1 <= level <= MAX_LEVEL
      modifies this
      ensures Valid() && Entries() == InsertFirst(old(Entries()), Entry(key, value))
      ensures forall k ::
                OfKey(Entries(), k) == (if key == k then [Entry(key, value)] else []) + OfKey(old(Entries()), k)
    {
      hide Stacked, InsertFirst, DataSize, IsLowerBound, IsBound;
      LevelZeroSorted(lists);
      var result := Search(false, key);
      BoundIs(lists[0], key, result[0]);
      InsertFirstStable(Entries(), Entry(key, value), result[0]);
      Insert(false, key, value, level);
    }

    /** The value of the first entry with the key. */
    method GetFirst(key: Bytes) returns (value: Option<Bytes>)
      requires Valid()
      ensures value == if OfKey(Entries(), key) == [] then None else Some(OfKey(Entries(), key)[0].value)
    {
      hide Stacked, IsBound, DataSize, IsLowerBound;
      LevelZeroSorted(lists);
      var result := Search(false, key);
      BoundIs(lists[0], key, result[0]);
      FirstAtBound(Entries(), key, result[0]);
      if result[0] == |lists[0]| || lists[0][result[0]].key != key {
        return None;
      }
      LevelZeroData(lists, result[0]);
      value := Some(lists[0][result[0]].payload.value);
    }

    /** The value of the last entry with the key. */
    method GetLast(key: Bytes) returns (value: Option<Bytes>)
      requires Valid()
      ensures value == if OfKey(Entries(), key) == [] then None
              else Some(OfKey(Entries(), key)[|OfKey(Entries(), key)| - 1].value)
    {
      hide Stacked, IsBound, DataSize, IsUpperBound;
      LevelZeroSorted(lists);
      var result := Search(true, key);
      BoundIsUpper(lists[0], key, result[0]);
      LastAtBound(Entries(), key, result[0]);
      if result[0] == 0 || lists[0][result[0] - 1].key != key {
        return None;
      }
      LevelZeroData(lists, result[0] - 1);
      value := Some(lists[0][result[0] - 1].payload.value);
    }

    /** The position of the first entry with the key, or the end. */
    method SeekFirst(key: Bytes) returns (at: nat)
      requires Valid()
      ensures if OfKey(Entries(), key) == [] then at == |Entries()|
              else IsLowerBound(Entries(), key, at) && at < |Entries()| && Entries()[at].key == key
    {
      hide Stacked, IsBound, DataSize, IsLowerBound;
      LevelZeroSorted(lists);
      var result := Search(false, key);
      BoundIs(lists[0], key, result[0]);
      FirstAtBound(Entries(), key, result[0]);
      at := if result[0] == |lists[0]| || lists[0][result[0]].key != key then |lists[0]| else result[0];
    }

    method Clear()
      modifies this
      ensures Valid() && Entries() == []
    {
      lists, size := [[]], 0;
    }

    /** Bytes of all keys and values. */
    function GetSize(): (n: nat)
      requires Valid()
      reads this
      ensures n == DataSize(Entries())
    {
      size
    }
  }

  /** The elements of one entry, level by level, each pointing to the one below, put where the search says. */
  ghost predicate Tower(before: seq<List>, lists: seq<List>, result: seq<nat>, nodes: List, key: Bytes, value: Bytes) {
    && |lists| == |before| == |result| >= |nodes|
    && (forall l :: 0 <= l < |before| ==> result[l] <= |before[l]|)
    && (forall l :: 0 <= l < |nodes| ==>
          nodes[l].key == key && nodes[l] !in before[l] && lists[l] == InsertAt(before[l], result[l], nodes[l]))
    && (nodes != [] ==> nodes[0].payload == Data(value))
    && (forall l :: 0 < l < |nodes| ==> nodes[l].payload == Down(nodes[l - 1]))
    && (forall l :: |nodes| <= l < |lists| ==> lists[l] == before[l])
  }

  lemma EmptyOnTop(lists: seq<List>)
    requires Stacked(lists) && |lists| < MAX_LEVEL
    ensures Stacked(lists + [[]])
  {
    var more := lists + [[]];
    assert SubList([], lists[|lists| - 1]);
    assert more[0] == lists[0];
    forall l | 0 < l < |more| ensures SubList(more[l], more[l - 1]) {
      if l < |lists| {
        assert more[l] == lists[l];
      }
    }
  }

  lemma TowerStarts(lists: seq<List>, result: seq<nat>, key: Bytes, value: Bytes)
    requires |result| == |lists| && forall l :: 0 <= l < |lists| ==> result[l] <= |lists[l]|
    ensures Tower(lists, lists, result, [], key, value)
  {
  }

  lemma TowerGrows(before: seq<List>, lists: seq<List>, result: seq<nat>, nodes: List, key: Bytes, value: Bytes,
          n: Node)
    requires Tower(before, lists, result, nodes, key, value) && |nodes| < |lists|
    requires n.key == key && n !in lists[|nodes|]
    requires n.payload == if nodes == [] then Data(value) else Down(nodes[|nodes| - 1])
    ensures |result| == |lists| && result[|nodes|] <= |lists[|nodes|]|
    ensures Tower(before, lists[|nodes| := InsertAt(lists[|nodes|], result[|nodes|], n)], result, nodes + [n], key,
            value)
  {
    hide InsertAt;
  }

  lemma TowerStacked(before: seq<List>, lists: seq<List>, result: seq<nat>, nodes: List, last: bool, key: Bytes,
          value: Bytes)
    requires Stacked(before) && Tower(before, lists, result, nodes, key, value) && nodes != []
    requires forall l :: 0 <= l < |before| ==> IsBound(before[l], last, key, result[l])
    ensures Stacked(lists)
    ensures DataSize(EntriesOf(lists[0])) == DataSize(EntriesOf(before[0])) + |key| + |value|
    ensures EntriesOf(lists[0]) == if last then InsertLast(EntriesOf(before[0]), Entry(key, value))
            else InsertFirst(EntriesOf(before[0]), Entry(key, value))
  {
    hide IsBound, InsertAt, DataSize, InsertLast, InsertFirst, SubList, SortedNodes, Distinct, EntriesOf;
    forall l | 0 <= l < |lists| ensures SortedNodes(lists[l]) && Distinct(lists[l]) {
      if l < |nodes| {
        InsertedSorted(before[l], last, result[l], nodes[l]);
      }
    }
    forall l | 0 < l < |lists| ensures SubList(lists[l], lists[l - 1]) {
      if l < |nodes| {
        SubListInserted(before[l], before[l - 1], last, key, result[l], result[l - 1], nodes[l], nodes[l - 1]);
      } else if l == |nodes| {
        SubListKept(before[l], before[l - 1], result[l - 1], nodes[l - 1]);
      }
    }
    assert nodes[0].payload == Data(value);
    LevelZeroInserted(before[0], last, key, value, result[0], nodes[0]);
  }

  lemma LevelZeroInserted(list: List, last: bool, key: Bytes, value: Bytes, p: nat, n: Node)
    requires IsBound(list, last, key, p) && n.key == key && n.payload == Data(value)
             && (forall m :: m in list ==> m.payload.Data?)
    ensures p <= |list| && forall m :: m in InsertAt(list, p, n) ==> m.payload.Data?
    ensures DataSize(EntriesOf(InsertAt(list, p, n))) == DataSize(EntriesOf(list)) + |key| + |value|
    ensures EntriesOf(InsertAt(list, p, n)) == if last then InsertLast(EntriesOf(list), Entry(key, value))
            else InsertFirst(EntriesOf(list), Entry(key, value))
  {
    hide DataSize, InsertLast, InsertFirst, Less;
    var es, e := EntriesOf(list), Entry(key, value);
    assert EntriesOf(InsertAt(list, p, n)) == es[..p] + [e] + es[p..];
    if last {
      InsertLastIs(es, e, p);
    } else {
      InsertFirstIs(es, e, p);
    }
    SizePlaced(es, e, p);
  }

  lemma {:induction false} SizePlaced(es: seq<Entry>, e: Entry, p: nat)
    requires p <= |es|
    ensures DataSize(es[..p] + [e] + es[p..]) == DataSize(es) + |e.key| + |e.value|
  {
    var r := es[..p] + [e] + es[p..];
    if p == 0 {
      assert r[1..] == es;
    } else {
      assert r[1..] == es[1..][..p - 1] + [e] + es[1..][p - 1..];
      SizePlaced(es[1..], e, p - 1);
    }
  }

  lemma LevelZeroSorted(lists: seq<List>)
    requires Stacked(lists)
    ensures lists != [] && Sorted(EntriesOf(lists[0]))
  {
    hide Less;
    assert SortedNodes(lists[0]);
  }

  lemma LevelZeroData(lists: seq<List>, i: nat)
    requires Stacked(lists) && i < |lists[0]|
    ensures lists[0][i].payload.Data?
  {
  }

  lemma BoundIs(list: List, key: Bytes, p: nat)
    requires IsBound(list, false, key, p)
    ensures p <= |list| && IsLowerBound(EntriesOf(list), key, p)
  {
    hide Less;
  }

  lemma BoundIsUpper(list: List, key: Bytes, p: nat)
    requires IsBound(list, true, key, p)
    ensures p <= |list| && IsUpperBound(EntriesOf(list), key, p)
  {
    hide Less;
  }

  lemma FirstAtBound(es: seq<Entry>, key: Bytes, p: nat)
    requires Sorted(es) && p <= |es| && IsLowerBound(es, key, p)
    ensures OfKey(es, key) == [] <==> p == |es| || es[p].key != key
    ensures OfKey(es, key) != [] ==> OfKey(es, key)[0] == es[p]
  {
    hide Sorted, Less;
    BelowAbsent(es, key, p);
    assert es == es[..p] + es[p..];
    OfKeyConcat(es[..p], es[p..], key);
    if p < |es| && es[p].key != key {
      AboveAbsent(es, key, p);
    }
  }

  lemma AboveAbsent(es: seq<Entry>, key: Bytes, p: nat)
    requires Sorted(es) && IsLowerBound(es, key, p) && p < |es| && es[p].key != key
    ensures OfKey(es[p..], key) == []
  {
    hide Less;
    LessTotal(key, es[p].key);
    forall j | p <= j < |es| ensures es[j].key != key {
      if j > p { LessTotal(es[p].key, es[j].key); }
    }
    NoneOfKey(es[p..], key);
  }

  lemma LastAtBound(es: seq<Entry>, key: Bytes, p: nat)
    requires Sorted(es) && p <= |es| && IsUpperBound(es, key, p)
    ensures OfKey(es, key) == [] <==> p == 0 || es[p - 1].key != key
    ensures OfKey(es, key) != [] ==> OfKey(es, key)[|OfKey(es, key)| - 1] == es[p - 1]
  {
    hide Less;
    LessIrreflexive(key);
    assert es == es[..p] + es[p..];
    OfKeyConcat(es[..p], es[p..], key);
    NoneOfKey(es[p..], key);
    if p > 0 {
      assert es[..p] == es[..p - 1] + [es[p - 1]];
      OfKeyConcat(es[..p - 1], [es[p - 1]], key);
      OfKeyOne(es[p - 1], key);
      if es[p - 1].key != key {
        LessTotal(es[p - 1].key, key);
        forall j | 0 <= j < p ensures es[j].key != key {
          LessTotal(es[j].key, es[p - 1].key);
        }
        NoneOfKey(es[..p], key);
      }
    }
  }
}
