// What the search of the spatial database means in terms of points, and which subtrees it looks at.
module BoxSearches {
  import opened Bytes
  import opened Entries
  import opened Packing
  import opened PackedShape
  import opened PbtIteration
  import opened StoredFile
  import opened Traversal
  import opened Database
  import opened DbRuns
  import opened SpatialDb

  // ---- Common points.

  predicate Inside(b: Box, x: nat, y: nat) {
    b.x0 <= x <= b.x1 && b.y0 <= y <= b.y1
  }

  predicate Upright(b: Box) {
    b.x0 <= b.x1 && b.y0 <= b.y1
  }

  /** For upright boxes the condition of the search holds exactly when some point lies in both. */
  lemma HitsMeansCommonPoint(query: Box, b: Box, value: Bytes)
    requires b.Fits() && Upright(query) && Upright(b)
    ensures Hits(query)(PadValueWithBbox(b, value)) <==> exists x: nat, y: nat :: Inside(query, x, y) && Inside(b, x, y)
  {
    hide BoxOf, Hits, PadValueWithBbox;
    PaddedReads(b, value);
    HitsIff(query, PadValueWithBbox(b, value));
    var x, y := Max(query.x0, b.x0), Max(query.y0, b.y0);
    if x <= query.x1 && x <= b.x1 && y <= query.y1 && y <= b.y1 {
      assert Inside(query, x, y) && Inside(b, x, y);
    } else {
      assert BeyondOn(Left, query, b) || BeyondOn(Right, query, b) || BeyondOn(Lower, query, b)
             || BeyondOn(Upper, query, b);
    }
  }

  // ---- Points.

  ghost predicate OnlyPoints(items: seq<Item>) {
    forall i :: 0 <= i < |items| ==> items[i].box == PointBox(items[i].box.x0, items[i].box.y0)
  }

  /** The values of the points inside the query. */
  function ValuesInside(points: seq<Item>, query: Box): seq<Bytes> {
    if points == [] then [] else
      (if Inside(query, points[0].box.x0, points[0].box.y0) then [points[0].value] else [])
      + ValuesInside(points[1..], query)
  }

  lemma PointBeyond(query: Box, x: nat, y: nat)
    ensures Beyond(query, PointBox(x, y)) <==> !Inside(query, x, y)
  {
    var b := PointBox(x, y);
    if !Inside(query, x, y) {
      assert BeyondOn(Left, query, b) || BeyondOn(Right, query, b) || BeyondOn(Lower, query, b)
             || BeyondOn(Upper, query, b);
    }
  }

  /** Among points, brute force finds those inside the query. */
  lemma {:induction false} BruteForcePoints(points: seq<Item>, query: Box)
    requires OnlyPoints(points)
    ensures BruteForce(points, query) == ValuesInside(points, query)
  {
    hide Beyond, Inside;
    if points != [] {
      PointBeyond(query, points[0].box.x0, points[0].box.y0);
      BruteForcePoints(points[1..], query);
    }
  }

  /** Every box added is a point. */
  ghost predicate AddsPoints(evs: seq<HrEvent>) {
    forall i :: 0 <= i < |evs| && evs[i].Perform? && evs[i].op.HrAdd? ==>
        evs[i].op.box == PointBox(evs[i].op.box.x0, evs[i].op.box.y0)
  }

  lemma {:induction false} RunOfPoints(cfg: Database.Config, evs: seq<HrEvent>)
    requires cfg.maxLevelCount > 0 && (forall i :: 0 <= i < |evs| ==> EventFits(evs[i])) && AddsPoints(evs)
    ensures OnlyPoints(HrRun(cfg, evs).flushed) && OnlyPoints(HrRun(cfg, evs).pending)
  {
    hide Step, KvOperation, ConfigAfter;
    if evs != [] {
      RunOfPoints(cfg, evs[..|evs| - 1]);
    }
  }

  /** After any run of points, reopening included, the flushed entries from which a search chooses are those of the
      points inside the query. */
  lemma SearchPoints(cfg: Database.Config, evs: seq<HrEvent>, query: Box)
    requires cfg.maxLevelCount > 0 && HrWellFormed(cfg, evs) && AddsPoints(evs)
    ensures var t := HrRun(cfg, evs);
            multiset(Found(Contents(t.kv.db), query)) == multiset(ValuesInside(t.flushed, query))
  {
    hide Found, Contents, HrRun, BruteForce, ValuesInside, AddsPoints;
    SearchFlushed(cfg, evs, query);
    RunOfPoints(cfg, evs);
    BruteForcePoints(HrRun(cfg, evs).flushed, query);
  }

  /** After any run of points that ends in a flush or a compaction, a search finds all added points inside the query. */
  lemma SearchAllPoints(cfg: Database.Config, ops: seq<HrOperation>, query: Box)
    requires cfg.maxLevelCount > 0 && ItemsFit(ItemsOf(ops)) && |ItemsOf(ops)| < U64_LIMIT && OnlyPoints(ItemsOf(ops))
    requires ops != [] && !ops[|ops| - 1].HrAdd?
    ensures multiset(Found(Contents(Run(cfg, Lowered(ops)).db), query)) == multiset(ValuesInside(ItemsOf(ops), query))
  {
    hide Found, Contents, Run, BruteForce, ValuesInside;
    SearchAfterRun(cfg, ops, query);
    BruteForcePoints(ItemsOf(ops), query);
  }

  // ---- Which subtrees a search looks at.

  /** The box of the value is not beyond the query on this side. */
  function Reaches(side: Side, query: Box): Bytes -> bool {
    v => !BeyondOn(side, query, BoxOf(v))
  }

  /** A union reaches over a side exactly when one of the boxes does. */
  lemma UnionReaches(cfg: WriterConfig, side: Side, query: Box)
    requires cfg.reduce == Some(SpatialDb.ReducedValue)
    ensures Covers(cfg, Reaches(side, query)) && Spares(cfg, Reaches(side, query))
  {
    hide BoxOf, UnionOf, SpatialDb.ReducedValue;
    var p := Reaches(side, query);
    forall vs: seq<Bytes>, i | 0 <= i < |vs| && p(vs[i]) ensures p(cfg.Reduce(vs)) {
      UnionLeast(vs);
      ReducedReads(vs);
      assert OutsideOf(UnionOf(vs), BoxOf(vs[i]));
    }
    forall vs: seq<Bytes> | vs != [] && NoneHolds(vs, p) ensures !p(cfg.Reduce(vs)) {
      UnionLeast(vs);
      ReducedReads(vs);
    }
  }

  lemma HitsSides(query: Box, v: Bytes)
    ensures Hits(query)(v) <==> forall side :: Reaches(side, query)(v)
  {
    hide BoxOf, Hits;
    HitsIff(query, v);
    forall side: Side ensures Reaches(side, query)(v) <==> !BeyondOn(side, query, BoxOf(v)) {
    }
  }

  /** Some entry below node (l, j) is not beyond the query on this side. */
  ghost predicate ReachedBelow(es: seq<Entry>, cfg: WriterConfig, l: nat, j: nat, side: Side, query: Box)
    requires cfg.Allowed()
  {
    exists i :: From(cfg, l, j) <= i < To(cfg, |es|, l, j) && i < |es| && !BeyondOn(side, query, BoxOf(es[i].value))
  }

  /** A search looks below a node exactly when for no side of the query all boxes below the node are beyond it; so a
      subtree whose boxes are all on one side is skipped. */
  lemma VisitedIff(image: Bytes, es: seq<Entry>, cfg: WriterConfig, globalStart: nat, l: nat, j: nat, query: Box)
    requires IsFile(image, es, cfg, globalStart) && cfg.reduce == Some(SpatialDb.ReducedValue)
    requires l < |Packing.Levels(es, cfg)| && j < |Packing.Levels(es, cfg)[l]|
    ensures Hits(query)(Packing.Levels(es, cfg)[l][j].reduced) <==>
              forall side :: ReachedBelow(es, cfg, l, j, side, query)
  {
    hide PbtImage, Fits, Packing.Levels, Hits, From, To, BoxOf, ReachedBelow, Reaches;
    var node := Packing.Levels(es, cfg)[l][j].reduced;
    HitsSides(query, node);
    forall side: Side ensures Reaches(side, query)(node) <==> ReachedBelow(es, cfg, l, j, side, query) {
      SideBelow(image, es, cfg, globalStart, l, j, side, query);
    }
  }

  lemma SideBelow(image: Bytes, es: seq<Entry>, cfg: WriterConfig, globalStart: nat, l: nat, j: nat, side: Side,
          query: Box)
    requires IsFile(image, es, cfg, globalStart) && cfg.reduce == Some(SpatialDb.ReducedValue)
    requires l < |Packing.Levels(es, cfg)| && j < |Packing.Levels(es, cfg)[l]|
    ensures Reaches(side, query)(Packing.Levels(es, cfg)[l][j].reduced) <==> ReachedBelow(es, cfg, l, j, side, query)
  {
    hide Packing.Levels, From, To, BoxOf, Covers, Spares, PbtImage, Fits, TreeStored, LeavesReadable;
    UnionReaches(cfg, side, query);
    if ReachedBelow(es, cfg, l, j, side, query) {
      var i :| From(cfg, l, j) <= i < To(cfg, |es|, l, j) && i < |es| && !BeyondOn(side, query, BoxOf(es[i].value));
      FileStores(image, es, cfg, globalStart);
      NodeSpan(image, es, cfg, Packing.Levels(es, cfg), l, j);
      ReducedCovers(image, es, cfg, globalStart, l, j, i, Reaches(side, query));
    } else {
      ReducedSpares(image, es, cfg, globalStart, l, j, Reaches(side, query));
    }
  }

  /** Child `k` of a node contributes nothing to a search when all boxes below it are beyond the query on one side. */
  lemma ChildSkipped(image: Bytes, es: seq<Entry>, cfg: WriterConfig, globalStart: nat, l: nat, j: nat, k: nat,
          side: Side, query: Box)
    requires IsFile(image, es, cfg, globalStart) && cfg.reduce == Some(SpatialDb.ReducedValue)
    requires 1 <= l < |Packing.Levels(es, cfg)| && Child(cfg, j, k) < |Packing.Levels(es, cfg)[l - 1]|
    requires !ReachedBelow(es, cfg, l - 1, Child(cfg, j, k), side, query)
    ensures PrunedChildren(es, cfg, Packing.Levels(es, cfg), l, j, k + 1, Hits(query))
         == PrunedChildren(es, cfg, Packing.Levels(es, cfg), l, j, k, Hits(query))
  {
    hide PbtImage, Fits, Packing.Levels, Hits, Child, Pruned, ReachedBelow;
    VisitedIff(image, es, cfg, globalStart, l - 1, Child(cfg, j, k), query);
  }
}
