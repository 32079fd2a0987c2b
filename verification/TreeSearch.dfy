// The search from the root as a function of the entries and the fan-out, on entries in any order.
module TreeSearch {
  import opened Bytes
  import opened Entries
  import opened Grouping
  import opened Packing
  import opened Structures
  import opened PackedShape
  import opened StoredFile

  datatype FindMode = Exact | GreaterOrEqual

  predicate Matches(k: Bytes, key: Bytes, mode: FindMode) {
    if mode.Exact? then k == key else AtMost(key, k)
  }

  function KeyAt(es: seq<Entry>, i: nat): Bytes {
    if i < |es| then es[i].key else []
  }

  /** The scan of one leaf. */
  function Scan(es: seq<Entry>, key: Bytes, mode: FindMode, at: nat, end: nat): Option<nat>
    requires at <= end
    decreases end - at
  {
    if at == end then None
    else if Matches(KeyAt(es, at), key, mode) then Some(at)
    else Scan(es, key, mode, at + 1, end)
  }

  /** The binary search over the right keys of a node. */
  function Pick(rights: seq<Bytes>, key: Bytes, lo: nat, hi: nat): (k: nat)
    requires lo <= hi < |rights|
    ensures lo <= k <= hi
    decreases hi - lo
  {
    if lo == hi then lo else
      var mid := lo + (hi - lo) / 2;
      if AtMost(key, rights[mid]) then Pick(rights, key, lo, mid) else Pick(rights, key, mid + 1, hi)
  }

  lemma PickStep(rights: seq<Bytes>, key: Bytes, lo: nat, hi: nat)
    requires lo < hi < |rights|
    ensures var mid := lo + (hi - lo) / 2;
            && lo <= mid < hi
            && Pick(rights, key, lo, hi) == if AtMost(key, rights[mid]) then Pick(rights, key, lo, mid)
                 else Pick(rights, key, mid + 1, hi)
  {
    hide Less;
  }

  lemma PickOne(rights: seq<Bytes>, key: Bytes, lo: nat)
    requires lo < |rights|
    ensures Pick(rights, key, lo, lo) == lo
  {
    hide Less;
  }

  /** The child picked ends at or above the key, if any does, and its left neighbour below, for keys in any order. */
  lemma {:induction false} PickNeighbours(rights: seq<Bytes>, key: Bytes, lo: nat, hi: nat)
    requires lo <= hi < |rights|
    requires lo == 0 || Less(rights[lo - 1], key)
    requires hi == |rights| - 1 || AtMost(key, rights[hi])
    ensures var k := Pick(rights, key, lo, hi);
            (k == 0 || Less(rights[k - 1], key)) && (k == |rights| - 1 || AtMost(key, rights[k]))
    decreases hi - lo
  {
    hide Less, Pick;
    if lo == hi {
      PickOne(rights, key, lo);
    } else {
      PickStep(rights, key, lo, hi);
      var mid := lo + (hi - lo) / 2;
      if AtMost(key, rights[mid]) {
        PickNeighbours(rights, key, lo, mid);
      } else {
        PickNeighbours(rights, key, mid + 1, hi);
      }
    }
  }

  /** Number of children of node (l, j). */
  function ChildrenOf(cfg: WriterConfig, n: nat, l: nat, j: nat): nat
    requires cfg.Allowed() && l > 0
  {
    var from, to := From(cfg, l, j), To(cfg, n, l, j);
    DivCeil(if from <= to then to - from else 0, Span(cfg, l - 1))
  }

  /** The right keys of the children of node (l, j). */
  function RightsOf(es: seq<Entry>, cfg: WriterConfig, l: nat, j: nat): (rights: seq<Bytes>)
    requires cfg.Allowed() && l > 0
    ensures |rights| == ChildrenOf(cfg, |es|, l, j)
  {
    seq(ChildrenOf(cfg, |es|, l, j), k requires k >= 0 => RightKeyOf(es, cfg, l - 1, Child(cfg, j, k)))
  }

  function RightKeyOf(es: seq<Entry>, cfg: WriterConfig, l: nat, j: nat): Bytes
    requires cfg.Allowed()
  {
    var to := To(cfg, |es|, l, j);
    if to > 0 then KeyAt(es, to - 1) else []
  }

  /** The search below node (l, j): the position it ends at. */
  function SearchNode(es: seq<Entry>, cfg: WriterConfig, l: nat, j: nat, key: Bytes, mode: FindMode): Option<nat>
    requires cfg.Allowed()
    decreases l
  {
    var from, to := From(cfg, l, j), To(cfg, |es|, l, j);
    if from > to then None
    else if l == 0 then Scan(es, key, mode, from, to)
    else
      var rights := RightsOf(es, cfg, l, j);
      if rights == [] || (mode.Exact? && Less(key, KeyAt(es, from))) then None else
        var k := Pick(rights, key, 0, |rights| - 1);
        if mode.Exact? && Less(rights[k], key) then None
        else SearchNode(es, cfg, l - 1, Child(cfg, j, k), key, mode)
  }

  /** What a search of a file of these entries ends at. */
  ghost function Search(es: seq<Entry>, cfg: WriterConfig, key: Bytes, mode: FindMode): Option<nat>
    requires cfg.Allowed()
  {
    if es == [] then None else SearchNode(es, cfg, |Packing.Levels(es, cfg)| - 1, 0, key, mode)
  }

  // ---- On any file: what is found matches.

  lemma {:induction false} ScanFirst(es: seq<Entry>, key: Bytes, mode: FindMode, at: nat, end: nat)
    requires at <= end <= |es|
    ensures Scan(es, key, mode, at, end).Some? ==> at <= Scan(es, key, mode, at, end).value < end
    ensures forall i :: at <= i < end && (Scan(es, key, mode, at, end).Some? ==>
            i < Scan(es, key, mode, at, end).value) ==>
              !Matches(es[i].key, key, mode)
    ensures Scan(es, key, mode, at, end).Some? ==> Matches(es[Scan(es, key, mode, at, end).value].key, key, mode)
    decreases end - at
  {
    hide Matches;
    if at < end && !Matches(es[at].key, key, mode) {
      ScanFirst(es, key, mode, at + 1, end);
    }
  }

  lemma {:induction false} NodeSound(es: seq<Entry>, cfg: WriterConfig, l: nat, j: nat, key: Bytes, mode: FindMode)
    requires cfg.Allowed()
    ensures var r := SearchNode(es, cfg, l, j, key, mode); r.Some? ==>
            r.value < |es| && Matches(es[r.value].key, key, mode)
    decreases l
  {
    hide Matches, Less, Span, Pick, RightKeyOf, ChildrenOf;
    var from, to := From(cfg, l, j), To(cfg, |es|, l, j);
    if from <= to {
      if l == 0 {
        ScanFirst(es, key, mode, from, to);
      } else {
        var rights := RightsOf(es, cfg, l, j);
        if rights != [] {
          NodeSound(es, cfg, l - 1, Child(cfg, j, Pick(rights, key, 0, |rights| - 1)), key, mode);
        }
      }
    }
  }

  /** Whatever the order of the entries, a search never ends at an entry that does not match. */
  lemma SearchSound(es: seq<Entry>, cfg: WriterConfig, key: Bytes, mode: FindMode)
    requires cfg.Allowed()
    ensures var r := Search(es, cfg, key, mode); r.Some? ==> r.value < |es| && Matches(es[r.value].key, key, mode)
  {
    hide Matches, Packing.Levels, SearchNode;
    if es != [] {
      NodeSound(es, cfg, |Packing.Levels(es, cfg)| - 1, 0, key, mode);
    }
  }

  // ---- On sorted files: the search is the lower bound.

  /** The lower bound of `key` lies in [from, to], and in front of `to` unless that is the end of the file. */
  ghost predicate Narrowed(es: seq<Entry>, key: Bytes, from: nat, to: nat) {
    && from < to <= |es|
    && (forall i :: 0 <= i < from ==> Less(es[i].key, key))
    && (to == |es| || AtMost(key, es[to - 1].key))
  }

  /** Descending into child [f, t): every earlier child ends below the key, this one does not (or is the last). */
  lemma NarrowTo(es: seq<Entry>, key: Bytes, from: nat, to: nat, f: nat, t: nat)
    requires Sorted(es) && Narrowed(es, key, from, to) && from <= f < t <= to
    requires f == from || Less(es[f - 1].key, key)
    requires t == to || AtMost(key, es[t - 1].key)
    ensures Narrowed(es, key, f, t)
  {
    forall i | 0 <= i < f ensures Less(es[i].key, key) {
      if i >= from && i < f - 1 {
        LessAtMost(es[f - 1].key, key);
        Chain(es[i].key, es[f - 1].key, key);
      }
    }
  }

  /** A key below the first or above the last key of its range does not occur. */
  lemma OutsideAbsent(es: seq<Entry>, key: Bytes, from: nat, to: nat)
    requires Sorted(es) && Narrowed(es, key, from, to)
    requires Less(key, es[from].key) || Less(es[to - 1].key, key)
    ensures forall i :: 0 <= i < |es| ==> es[i].key != key
  {
    LessIrreflexive(key);
    if Less(key, es[from].key) {
      forall i | from <= i < |es| ensures es[i].key != key {
        LessAtMost(key, es[from].key);
        if i > from { Chain(key, es[from].key, es[i].key); }
      }
    } else {
      LessTotal(es[to - 1].key, key);
      forall i | 0 <= i < |es| ensures es[i].key != key {
        LessAtMost(es[to - 1].key, key);
        if i < to - 1 { Chain(es[i].key, es[to - 1].key, key); }
      }
    }
  }

  /** The entries seen so far are below the key: if the next one is not, it is the lower bound. */
  lemma BoundAt(es: seq<Entry>, key: Bytes, p: nat)
    requires Sorted(es) && p <= |es| && (forall i :: 0 <= i < p ==> Less(es[i].key, key))
    requires p == |es| || AtMost(key, es[p].key)
    ensures IsLowerBound(es, key, p)
  {
    forall j | p <= j < |es| ensures AtMost(key, es[j].key) {
      if j > p { Chain(key, es[p].key, es[j].key); }
    }
  }

  /** The first entry that has the key, or the first one not below it, is the lower bound. */
  lemma FoundAt(es: seq<Entry>, key: Bytes, p: nat)
    requires Sorted(es) && p < |es| && AtMost(key, es[p].key)
    requires (forall i :: 0 <= i < p ==> Less(es[i].key, key))
             || (es[p].key == key && forall i :: 0 <= i < p ==> es[i].key != key)
    ensures IsLowerBound(es, key, p) && !IsLowerBound(es, key, |es|)
  {
    forall i | 0 <= i < p ensures Less(es[i].key, key) {
      LessTotal(es[i].key, key);
    }
    BoundAt(es, key, p);
  }

  /** No match up to `to`, and the entry before `to` is not below the key: no match at all. */
  lemma PastAbsent(es: seq<Entry>, key: Bytes, to: nat)
    requires Sorted(es) && 0 < to <= |es| && (forall i :: 0 <= i < to ==> es[i].key != key)
    requires to == |es| || AtMost(key, es[to - 1].key)
    ensures forall i :: 0 <= i < |es| ==> es[i].key != key
  {
    LessIrreflexive(key);
    forall i | to <= i < |es| ensures es[i].key != key {
      LessTotal(key, es[to - 1].key);
      Chain(key, es[to - 1].key, es[i].key);
    }
  }

  lemma FirstOfKey(es: seq<Entry>, key: Bytes, p: nat)
    requires p < |es| && IsLowerBound(es, key, p) && (exists i :: 0 <= i < |es| && es[i].key == key) && Sorted(es)
    ensures OfKey(es, key) != [] && OfKey(es, key)[0] == es[p]
  {
    LessIrreflexive(key);
    var i :| 0 <= i < |es| && es[i].key == key;
    assert AtMost(es[p].key, key);
    LessTotal(es[p].key, key);
    assert es == es[..p] + es[p..];
    OfKeyConcat(es[..p], es[p..], key);
    NoneOfKey(es[..p], key);
  }

  /** The numbers of the children of node (l, j): they tile its range. */
  lemma ChildBounds(cfg: WriterConfig, n: nat, l: nat, j: nat, k: nat)
    requires cfg.Allowed() && l > 0 && From(cfg, l, j) < To(cfg, n, l, j) && k < ChildrenOf(cfg, n, l, j)
    ensures var c, count := j * cfg.maxNodeChildren, ChildrenOf(cfg, n, l, j);
            && From(cfg, l - 1, c) == From(cfg, l, j)
            && From(cfg, l, j) <= From(cfg, l - 1, c + k) < To(cfg, n, l - 1, c + k) <= To(cfg, n, l, j)
            && (k > 0 ==> To(cfg, n, l - 1, c + k - 1) == From(cfg, l - 1, c + k))
            && (k + 1 == count ==> To(cfg, n, l - 1, c + k) == To(cfg, n, l, j))
  {
    hide Span, DivCeil;
    var s, b := Span(cfg, l - 1), cfg.maxNodeChildren;
    SpanStep(cfg, l - 1, j);
    SpanStep(cfg, l - 1, j + 1);
    var from, to := From(cfg, l, j), To(cfg, n, l, j);
    TileArithmetic(n, s, b, j, k, from, to);
  }

  lemma TileArithmetic(n: nat, s: nat, b: nat, j: nat, k: nat, from: nat, to: nat)
    requires s > 0 && b > 0 && from == j * b * s && to == Min((j + 1) * b * s, n) && from < to
             && k < DivCeil(to - from, s)
    ensures var c := j * b;
            && from <= (c + k) * s < Min((c + k + 1) * s, n) <= to
            && (k > 0 ==> Min((c + k) * s, n) == (c + k) * s)
            && (k + 1 == DivCeil(to - from, s) ==> Min((c + k + 1) * s, n) == to)
  {
    hide DivCeil;
    var count, c := DivCeil(to - from, s), j * b;
    DivCeilBounds(to - from, s);
    Distribute(c, k, s);
    Distribute(c, k + 1, s);
    Distribute(c, b, s);
    Distribute(k, 1, s);
    Monotone(k + 1, count, s);
    assert (j + 1) * b == c + b;
    assert to - from <= b * s;
    if k + 1 > b {
      Monotone(b, k, s);
    }
    Monotone(k + 1, b, s);
  }

  /** The result of a search of sorted entries: the first match, and none only when there is none. */
  ghost predicate Finds(es: seq<Entry>, key: Bytes, mode: FindMode, r: Option<nat>) {
    && (mode.Exact? ==> (r.Some? <==> exists i :: 0 <= i < |es| && es[i].key == key))
    && (mode.GreaterOrEqual? ==> (r.Some? <==> !IsLowerBound(es, key, |es|)))
    && (r.Some? ==> r.value < |es| && IsLowerBound(es, key, r.value))
  }

  lemma LeafSorted(es: seq<Entry>, key: Bytes, mode: FindMode, from: nat, to: nat)
    requires Sorted(es) && Narrowed(es, key, from, to)
    ensures Finds(es, key, mode, Scan(es, key, mode, from, to))
  {
    hide Less, Sorted, Scan;
    var r := Scan(es, key, mode, from, to);
    ScanFirst(es, key, mode, from, to);
    LessIrreflexive(key);
    var end := if r.Some? then r.value else to;
    forall i | 0 <= i < end ensures es[i].key != key && (mode.GreaterOrEqual? ==> Less(es[i].key, key)) {
      if i >= from {
        assert !Matches(es[i].key, key, mode);
      }
    }
    if r.Some? {
      LessIrreflexive(es[r.value].key);
      FoundAt(es, key, r.value);
    } else if mode.Exact? {
      PastAbsent(es, key, to);
    }
  }

  lemma LeafStep(es: seq<Entry>, cfg: WriterConfig, j: nat, key: Bytes, mode: FindMode)
    requires cfg.Allowed() && From(cfg, 0, j) < To(cfg, |es|, 0, j)
    ensures SearchNode(es, cfg, 0, j, key, mode) == Scan(es, key, mode, From(cfg, 0, j), To(cfg, |es|, 0, j))
  {
  }

  /** One step of the search at an internal node. */
  lemma NodeStep(es: seq<Entry>, cfg: WriterConfig, l: nat, j: nat, key: Bytes, mode: FindMode)
    requires cfg.Allowed() && l > 0 && From(cfg, l, j) < To(cfg, |es|, l, j)
    ensures RightsOf(es, cfg, l, j) != []
    ensures var rights := RightsOf(es, cfg, l, j);
            var k := Pick(rights, key, 0, |rights| - 1);
            SearchNode(es, cfg, l, j, key, mode) ==
              if mode.Exact? && (Less(key, KeyAt(es, From(cfg, l, j))) || Less(rights[k], key)) then None
              else SearchNode(es, cfg, l - 1, Child(cfg, j, k), key, mode)
  {
    hide Less, Span, DivCeil, From, To, Pick, Child, KeyAt;
    ChildrenSome(cfg, |es|, l, j);
  }

  lemma {:induction false} NodeSorted(es: seq<Entry>, cfg: WriterConfig, l: nat, j: nat, key: Bytes, mode: FindMode)
    requires cfg.Allowed() && Sorted(es) && Narrowed(es, key, From(cfg, l, j), To(cfg, |es|, l, j))
    ensures Finds(es, key, mode, SearchNode(es, cfg, l, j, key, mode))
    decreases l
  {
    hide Less, Sorted, From, To, Pick, Narrowed, Child, Finds, KeyAt, SearchNode, RightsOf, ChildrenOf;
    var from, to := From(cfg, l, j), To(cfg, |es|, l, j);
    NarrowedRange(es, key, from, to);
    if l == 0 {
      LeafStep(es, cfg, j, key, mode);
      LeafSorted(es, key, mode, from, to);
    } else {
      NodeStep(es, cfg, l, j, key, mode);
      var rights := RightsOf(es, cfg, l, j);
      var k := Pick(rights, key, 0, |rights| - 1);
      PickNeighbours(rights, key, 0, |rights| - 1);
      ChildNarrowed(es, cfg, l, j, k, key);
      var f, t := From(cfg, l - 1, Child(cfg, j, k)), To(cfg, |es|, l - 1, Child(cfg, j, k));
      NarrowedRange(es, key, f, t);
      if mode.Exact? && Less(key, es[from].key) {
        AbsentOutside(es, key, from, to);
      } else if mode.Exact? && Less(rights[k], key) {
        AbsentOutside(es, key, f, t);
      } else {
        NodeSorted(es, cfg, l - 1, Child(cfg, j, k), key, mode);
      }
    }
  }

  lemma NarrowedRange(es: seq<Entry>, key: Bytes, from: nat, to: nat)
    requires Narrowed(es, key, from, to)
    ensures from < to <= |es| && KeyAt(es, from) == es[from].key && KeyAt(es, to - 1) == es[to - 1].key
  {
  }

  lemma ChildrenSome(cfg: WriterConfig, n: nat, l: nat, j: nat)
    requires cfg.Allowed() && l > 0 && From(cfg, l, j) < To(cfg, n, l, j)
    ensures ChildrenOf(cfg, n, l, j) > 0
  {
    hide Span, DivCeil, From, To;
    DivCeilBounds(To(cfg, n, l, j) - From(cfg, l, j), Span(cfg, l - 1));
  }

  lemma AbsentOutside(es: seq<Entry>, key: Bytes, from: nat, to: nat)
    requires Sorted(es) && Narrowed(es, key, from, to)
    requires Less(key, es[from].key) || Less(es[to - 1].key, key)
    ensures Finds(es, key, Exact, None)
  {
    hide Less, Sorted, Narrowed;
    OutsideAbsent(es, key, from, to);
  }

  lemma ChildNarrowed(es: seq<Entry>, cfg: WriterConfig, l: nat, j: nat, k: nat, key: Bytes)
    requires cfg.Allowed() && l > 0 && Sorted(es) && Narrowed(es, key, From(cfg, l, j), To(cfg, |es|, l, j))
    requires k < ChildrenOf(cfg, |es|, l, j)
    requires k == 0 || Less(RightsOf(es, cfg, l, j)[k - 1], key)
    requires k == ChildrenOf(cfg, |es|, l, j) - 1 || AtMost(key, RightsOf(es, cfg, l, j)[k])
    ensures var f, t := From(cfg, l - 1, Child(cfg, j, k)), To(cfg, |es|, l - 1, Child(cfg, j, k));
            Narrowed(es, key, f, t) && RightsOf(es, cfg, l, j)[k] == es[t - 1].key
  {
    hide Less, Sorted, Span, DivCeil, From, To;
    ChildBounds(cfg, |es|, l, j, k);
    ChildBefore(cfg, j, k);
    NarrowTo(es, key, From(cfg, l, j), To(cfg, |es|, l, j), From(cfg, l - 1, Child(cfg, j, k)),
        To(cfg, |es|, l - 1, Child(cfg, j, k)));
  }

  lemma ChildBefore(cfg: WriterConfig, j: nat, k: nat)
    ensures Child(cfg, j, 0) == j * cfg.maxNodeChildren && Child(cfg, j, k) == j * cfg.maxNodeChildren + k
    ensures k > 0 ==> Child(cfg, j, k - 1) == j * cfg.maxNodeChildren + k - 1
  {
  }

  /** On sorted entries the search ends at the lower bound, or reports that there is no match. */
  lemma SearchSorted(es: seq<Entry>, cfg: WriterConfig, key: Bytes, mode: FindMode)
    requires cfg.Allowed() && Sorted(es)
    ensures Finds(es, key, mode, Search(es, cfg, key, mode))
  {
    hide Less, Sorted, Packing.Levels, SearchNode, From, To, DivCeil;
    if es != [] {
      RootRange(es, cfg);
      NodeSorted(es, cfg, |Packing.Levels(es, cfg)| - 1, 0, key, mode);
    }
  }

  lemma RootRange(es: seq<Entry>, cfg: WriterConfig)
    requires cfg.Allowed() && es != []
    ensures From(cfg, |Packing.Levels(es, cfg)| - 1, 0) == 0 && To(cfg, |es|, |Packing.Levels(es, cfg)| - 1, 0) == |es|
  {
    hide Packing.Levels, PbtImage, DivCeil, TreeStored;
    var levels: seq<seq<Handle>> := Packing.Levels(es, cfg);
    ImageStoresTree(es, cfg, 0);
    Height(es, cfg, 0);
    LevelCount(PbtImage(es, cfg, 0), es, cfg, levels, |levels| - 1);
    DivCeilBounds(|es|, Span(cfg, |levels| - 1));
  }

  // ---- Lookup and seek in one file.

  ghost function Lookup(es: seq<Entry>, cfg: WriterConfig, key: Bytes): Option<Bytes>
    requires cfg.Allowed()
  {
    SearchSound(es, cfg, key, Exact);
    var r := Search(es, cfg, key, Exact);
    if r.None? then None else Some(es[r.value].value)
  }

  /** On sorted entries a lookup gives the value of the first entry with the key. */
  lemma LookupSorted(es: seq<Entry>, cfg: WriterConfig, key: Bytes)
    requires cfg.Allowed() && Sorted(es)
    ensures Lookup(es, cfg, key) == if OfKey(es, key) == [] then None else Some(OfKey(es, key)[0].value)
  {
    hide Search, Sorted, IsLowerBound, OfKey;
    SearchSound(es, cfg, key, Exact);
    SearchSorted(es, cfg, key, Exact);
    OfKeyMembers(es, key);
    var r := Search(es, cfg, key, Exact);
    if r.Some? {
      FirstOfKey(es, key, r.value);
    } else {
      NoneOfKey(es, key);
    }
  }

  /** On any entries a lookup gives the value of some entry with the key, or nothing. */
  lemma LookupSound(es: seq<Entry>, cfg: WriterConfig, key: Bytes)
    requires cfg.Allowed()
    ensures Lookup(es, cfg, key).Some? ==> Entry(key, Lookup(es, cfg, key).value) in es
  {
    hide Search;
    SearchSound(es, cfg, key, Exact);
    var r := Search(es, cfg, key, Exact);
    if r.Some? {
      assert es[r.value] == Entry(key, es[r.value].value);
    }
  }

  // ---- The empty key, in files in any order.

  lemma {:induction false} PickFirst(rights: seq<Bytes>, hi: nat)
    requires hi < |rights|
    ensures Pick(rights, [], 0, hi) == 0
  {
    if hi > 0 {
      PickFirst(rights, hi / 2);
    }
  }

  /** A file that begins with an empty key leads the search for the empty key to its first entry. */
  lemma {:induction false} FirstPath(es: seq<Entry>, cfg: WriterConfig, l: nat)
    requires cfg.Allowed() && es != [] && es[0].key == []
    ensures SearchNode(es, cfg, l, 0, [], Exact) == Some(0)
    decreases l
  {
    hide Span, Pick, DivCeil;
    assert From(cfg, l, 0) == 0 < To(cfg, |es|, l, 0);
    if l > 0 {
      ChildrenSome(cfg, |es|, l, 0);
      PickFirst(RightsOf(es, cfg, l, 0), ChildrenOf(cfg, |es|, l, 0) - 1);
      NodeStep(es, cfg, l, 0, [], Exact);
      FirstPath(es, cfg, l - 1);
    }
  }

  lemma PowAtLeastBase(b: nat, e: nat)
    requires b > 0 && e > 0
    ensures Pow(b, e) >= b
  {
    PowPositive(b, e - 1);
    Monotone(1, Pow(b, e - 1), b);
  }

  /** A file is one leaf exactly when its entries fit one. */
  lemma OneLeaf(es: seq<Entry>, cfg: WriterConfig)
    requires cfg.Allowed() && es != []
    ensures |Packing.Levels(es, cfg)| == 1 <==> |es| <= cfg.maxNodeChildren
  {
    hide Packing.Levels, Pow;
    Height(es, cfg, 0);
    var h := |Packing.Levels(es, cfg)|;
    PowOne(cfg.maxNodeChildren);
    if h > 1 {
      PowAtLeastBase(cfg.maxNodeChildren, h - 1);
    }
  }

  lemma PowOne(b: nat)
    ensures Pow(b, 1) == b
  {
    assert Pow(b, 0) == 1;
  }

  /** Exactly when the empty key is found: it occurs, and it is first or the file is a single leaf. */
  lemma EmptyKeyFound(es: seq<Entry>, cfg: WriterConfig)
    requires cfg.Allowed()
    ensures Lookup(es, cfg, []).Some? <==>
              (exists i :: 0 <= i < |es| && es[i].key == []) && (|es| <= cfg.maxNodeChildren || es[0].key == [])
  {
    hide Packing.Levels, SearchNode, Span, DivCeil;
    if es != [] {
      var l := |Packing.Levels(es, cfg)| - 1;
      OneLeaf(es, cfg);
      RootRange(es, cfg);
      if l == 0 {
        LeafStep(es, cfg, 0, [], Exact);
        ScanFirst(es, [], Exact, 0, |es|);
      } else if es[0].key == [] {
        FirstPath(es, cfg, l);
      } else {
        NodeStep(es, cfg, l, 0, [], Exact);
      }
    }
  }

  ghost function SeekPlace(es: seq<Entry>, cfg: WriterConfig, key: Bytes): nat
    requires cfg.Allowed()
  {
    var r := Search(es, cfg, key, GreaterOrEqual);
    if r.None? then |es| else r.value
  }

  lemma SeekPlaceFacts(es: seq<Entry>, cfg: WriterConfig, key: Bytes)
    requires cfg.Allowed()
    ensures SeekPlace(es, cfg, key) <= |es| && (Sorted(es) ==> IsLowerBound(es, key, SeekPlace(es, cfg, key)))
  {
    hide Search, IsLowerBound, Sorted;
    SearchSound(es, cfg, key, GreaterOrEqual);
    if Sorted(es) {
      SearchSorted(es, cfg, key, GreaterOrEqual);
    }
  }
}
