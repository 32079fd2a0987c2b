// The spatial database: bounding boxes in front of the values, their union in the tree, and exact search.
module SpatialDb {
  import opened Bytes
  import opened Entries
  import opened Grouping
  import opened Packing
  import opened Traversal
  import opened Buffering
  import Levels
  import opened LevelManagement
  import opened Database
  import opened DbRuns
  import opened KvLinks
  import opened KvQueries
  import opened ReaderMaps
  import opened KvOpening
  import opened KvDatabase
  import Hilbert
  import opened WordNumbers

  /** Corners as stored: 32-bit coordinates, in any order. */
  datatype Box = Box(x0: nat, y0: nat, x1: nat, y1: nat)
  {
    predicate Fits() {
      x0 < U32_LIMIT && y0 < U32_LIMIT && x1 < U32_LIMIT && y1 < U32_LIMIT
    }
  }

  const BOX_SIZE: nat := 16

  /** A point is the box of which both corners are the point. */
  function PointBox(x: nat, y: nat): Box {
    Box(x, y, x, y)
  }

  predicate Intersects(a: Box, b: Box) {
    b.x0 <= a.x1 && b.x1 >= a.x0 && b.y0 <= a.y1 && b.y1 >= a.y0
  }

  datatype Side = Left | Right | Lower | Upper

  /** The box lies entirely on this side of the query. */
  predicate BeyondOn(side: Side, query: Box, b: Box) {
    match side
    case Left => b.x1 < query.x0
    case Right => query.x1 < b.x0
    case Lower => b.y1 < query.y0
    case Upper => query.y1 < b.y0
  }

  /** Beyond the query on one of the four sides. */
  ghost predicate Beyond(query: Box, b: Box) {
    exists side :: BeyondOn(side, query, b)
  }

  function BoxImage(b: Box): (image: Bytes)
    ensures |image| == BOX_SIZE
  {
    Encode(b.x0, 4) + Encode(b.y0, 4) + Encode(b.x1, 4) + Encode(b.y1, 4)
  }

  function PadValueWithBbox(b: Box, value: Bytes): Bytes {
    BoxImage(b) + value
  }

  function BoxOf(value: Bytes): (b: Box)
    ensures b.Fits()
  {
    DecodedFits(Slice(value, 0, 4));
    DecodedFits(Slice(value, 4, 4));
    DecodedFits(Slice(value, 8, 4));
    DecodedFits(Slice(value, 12, 4));
    Box(ReadUint(value, 0, 4), ReadUint(value, 4, 4), ReadUint(value, 8, 4), ReadUint(value, 12, 4))
  }

  lemma DecodedFits(b: Bytes)
    requires |b| <= 4
    ensures Decode(b) < U32_LIMIT
  {
    assert b == [] || Decode(b) == b[0] + 256 * Decode(b[1..]);
    assert |b| <= 1 || Decode(b[1..]) == b[1] + 256 * Decode(b[2..]) by {
      if |b| > 1 { assert b[1..][1..] == b[2..]; }
    }
    assert |b| <= 2 || Decode(b[2..]) == b[2] + 256 * Decode(b[3..]) by {
      if |b| > 2 { assert b[2..][1..] == b[3..]; }
    }
    assert |b| <= 3 || Decode(b[3..]) == b[3] + 256 * Decode(b[4..]) by {
      if |b| > 3 { assert b[3..][1..] == b[4..]; }
    }
  }

  /** A padded value gives back its box and, without the prefix, its value; the corners come as x0, y0, x1, y1. */
  lemma PaddedReads(b: Box, value: Bytes)
    requires b.Fits()
    ensures BoxOf(PadValueWithBbox(b, value)) == b && PadValueWithBbox(b, value)[BOX_SIZE..] == value
    ensures ReadUint(PadValueWithBbox(b, value), 0, 4) == b.x0 && ReadUint(PadValueWithBbox(b, value), 4, 4) == b.y0
    ensures ReadUint(PadValueWithBbox(b, value), 8, 4) == b.x1 && ReadUint(PadValueWithBbox(b, value), 12, 4) == b.y1
  {
    hide Encode, ReadUint;
    Limits();
    var image := PadValueWithBbox(b, value);
    var e0, e1, e2, e3 := Encode(b.x0, 4), Encode(b.y0, 4), Encode(b.x1, 4), Encode(b.y1, 4);
    assert image[0..4] == e0 && image[4..8] == e1 && image[8..12] == e2 && image[12..16] == e3;
    AtUint(image, 0, b.x0, 4);
    AtUint(image, 4, b.y0, 4);
    AtUint(image, 8, b.x1, 4);
    AtUint(image, 12, b.y1, 4);
  }

  // ---- Reduction.

  function Max(a: nat, b: nat): nat { if a < b then b else a }

  /** The box that starts out larger than none and grows over every value. */
  function UnionOf(values: seq<Bytes>): (u: Box)
    ensures u.Fits()
  {
    if values == [] then Box(U32_LIMIT - 1, U32_LIMIT - 1, 0, 0) else
      var u, b := UnionOf(values[..|values| - 1]), BoxOf(values[|values| - 1]);
      Box(Min(u.x0, b.x0), Min(u.y0, b.y0), Max(u.x1, b.x1), Max(u.y1, b.y1))
  }

  function ReducedValue(values: seq<Bytes>): Bytes {
    BoxImage(UnionOf(values))
  }

  /** The reduction loop: what is stored is the least box around the boxes of the values. */
  method Reduce(values: seq<Bytes>) returns (reduced: Bytes)
    ensures reduced == ReducedValue(values)
    ensures Around(BoxOf(reduced), values)
    ensures if values == [] then BoxOf(reduced) == Box(U32_LIMIT - 1, U32_LIMIT - 1, 0, 0)
            else Touches(BoxOf(reduced), values)
  {
    hide BoxOf;
    var x0: nat, y0: nat := U32_LIMIT - 1, U32_LIMIT - 1;
    var x1: nat, y1: nat := 0, 0;
    for i := 0 to |values|
      invariant Box(x0, y0, x1, y1) == UnionOf(values[..i])
    {
      var b := BoxOf(values[i]);
      assert values[..i + 1][..i] == values[..i];
      x0, y0, x1, y1 := Min(x0, b.x0), Min(y0, b.y0), Max(x1, b.x1), Max(y1, b.y1);
    }
    assert values[..|values|] == values;
    reduced := BoxImage(Box(x0, y0, x1, y1));
    UnionLeast(values);
    ReducedReads(values);
  }

  lemma ReducedReads(values: seq<Bytes>)
    ensures BoxOf(ReducedValue(values)) == UnionOf(values)
  {
    hide BoxOf, BoxImage, UnionOf;
    PaddedReads(UnionOf(values), []);
    assert PadValueWithBbox(UnionOf(values), []) == BoxImage(UnionOf(values)) + [] == BoxImage(UnionOf(values));
  }

  /** The box is outside the boxes of all values, on every side; they may be inverted. */
  ghost predicate Around(u: Box, values: seq<Bytes>) {
    forall i :: 0 <= i < |values| ==> OutsideOf(u, BoxOf(values[i]))
  }

  predicate OutsideOf(u: Box, b: Box) {
    u.x0 <= b.x0 && u.y0 <= b.y0 && b.x1 <= u.x1 && b.y1 <= u.y1
  }

  /** Every side of the box is the side of the box of some value. */
  ghost predicate Touches(u: Box, values: seq<Bytes>) {
    && (exists i :: 0 <= i < |values| && BoxOf(values[i]).x0 == u.x0)
    && (exists i :: 0 <= i < |values| && BoxOf(values[i]).y0 == u.y0)
    && (exists i :: 0 <= i < |values| && BoxOf(values[i]).x1 == u.x1)
    && (exists i :: 0 <= i < |values| && BoxOf(values[i]).y1 == u.y1)
  }

  /** The union is the least box around all boxes; of one box it is that box. */
  lemma {:induction false} UnionLeast(values: seq<Bytes>)
    ensures Around(UnionOf(values), values)
    ensures values != [] ==> Touches(UnionOf(values), values)
    ensures values != [] ==> forall w :: Around(w, values) ==> OutsideOf(w, UnionOf(values))
    ensures |values| == 1 ==> UnionOf(values) == BoxOf(values[0])
  {
    hide BoxOf;
    if values != [] {
      var front, b := values[..|values| - 1], BoxOf(values[|values| - 1]);
      UnionLeast(front);
      UnionTouches(values);
      forall w | Around(w, values) ensures OutsideOf(w, UnionOf(values)) {
        assert OutsideOf(w, b);
        assert forall i :: 0 <= i < |front| ==> front[i] == values[i];
      }
    }
  }

  lemma UnionTouches(values: seq<Bytes>)
    requires values != []
    requires |values| > 1 ==> Touches(UnionOf(values[..|values| - 1]), values[..|values| - 1])
    ensures Touches(UnionOf(values), values)
  {
    hide BoxOf;
    var front, b := values[..|values| - 1], BoxOf(values[|values| - 1]);
    assert b.Fits() by { BoxFits(values[|values| - 1]); }
    assert forall i :: 0 <= i < |front| ==> front[i] == values[i];
  }

  lemma BoxFits(value: Bytes)
    ensures BoxOf(value).Fits()
  {
  }

  /** What the search asks of a value. */
  function Hits(query: Box): Bytes -> bool {
    v => Intersects(query, BoxOf(v))
  }

  /** The search predicate respects the reduction, so pruning is safe for every query and every set of boxes. */
  lemma HitsCover(cfg: WriterConfig, query: Box)
    requires cfg.reduce == Some(ReducedValue)
    ensures Covers(cfg, Hits(query))
  {
    hide BoxOf, UnionOf, ReducedValue;
    forall vs: seq<Bytes>, i | 0 <= i < |vs| && Hits(query)(vs[i]) ensures Hits(query)(cfg.Reduce(vs)) {
      UnionLeast(vs);
      assert OutsideOf(UnionOf(vs), BoxOf(vs[i]));
      ReducedReads(vs);
    }
  }

  // ---- Keys.

  /** Halves are added so that the sum cannot overflow; the result is the rounded-down mean. */
  function Average(a: nat, b: nat): (m: nat)
    ensures m == (a + b) / 2 && (a < U32_LIMIT && b < U32_LIMIT ==> m < U32_LIMIT)
  {
    a / 2 + b / 2 + (if a % 2 == 1 && b % 2 == 1 then 1 else 0)
  }

  /** The curve index, most significant byte first. */
  function KeyImage(h: nat): (key: Bytes)
    requires h < U32_LIMIT
    ensures |key| == 4
  {
    var h1 := h % 0x1000000;
    var h2 := h1 % 0x10000;
    [h / 0x1000000, h1 / 0x10000, h2 / 0x100, h2 % 0x100]
  }

  lemma LessHead(a: seq<int>, b: seq<int>, i: nat)
    requires i < |a| == |b|
    ensures Less(a[i..], b[i..]) <==> a[i] < b[i] || (a[i] == b[i] && Less(a[i + 1..], b[i + 1..]))
  {
    assert a[i..][1..] == a[i + 1..] && b[i..][1..] == b[i + 1..];
  }

  /** The number that bytes stand for, most significant first. */
  ghost function Number(key: Bytes): nat {
    if key == [] then 0 else 256 * Number(key[..|key| - 1]) + key[|key| - 1]
  }

  lemma NumberOfFour(key: Bytes)
    requires |key| == 4
    ensures Number(key) == (((key[0] as int) * 256 + key[1]) * 256 + key[2]) * 256 + key[3]
  {
    assert key[..3][..2] == key[..2] && key[..2][..1] == key[..1] && key[..1][..0] == [];
    assert Number(key[..1]) == key[0];
    assert Number(key[..2]) == 256 * Number(key[..1]) + key[1];
    assert Number(key[..3]) == 256 * Number(key[..2]) + key[2];
  }

  lemma KeyNumber(h: nat)
    requires h < U32_LIMIT
    ensures Number(KeyImage(h)) == h
  {
    NumberOfFour(KeyImage(h));
  }

  /** Four-byte keys sort as the numbers they stand for. */
  lemma KeyOrder(a: Bytes, b: Bytes)
    requires |a| == |b| == 4
    ensures Less(a, b) <==> Number(a) < Number(b)
    ensures a == b <==> Number(a) == Number(b)
  {
    hide Less, Number;
    NumberOfFour(a);
    NumberOfFour(b);
    LessHead(a, b, 0);
    LessHead(a, b, 1);
    LessHead(a, b, 2);
    LessHead(a, b, 3);
    LessIrreflexive([]);
    assert a[0..] == a && b[0..] == b && a[4..] == [] && b[4..] == [];
  }

  function HilbertKey(x: nat, y: nat): (key: Bytes)
    requires x < U32_LIMIT && y < U32_LIMIT
    ensures |key| == 4
  {
    KeyImage(Hilbert.XyToIndex(16, x as bv32, y as bv32) as nat)
  }

  /** What adding a box puts into the key-value database. */
  function EntryOf(b: Box, value: Bytes): Entry
    requires b.Fits()
  {
    Entry(HilbertKey(Average(b.x0, b.x1), Average(b.y0, b.y1)), PadValueWithBbox(b, value))
  }

  /** The key is the position of the point along the curve, most significant byte first. Points from 2^16 on are off the
      curve; they have some key of that size. */
  ghost predicate KeyOfPoint(key: Bytes, x: nat, y: nat) {
    && |key| == 4 && Number(key) < U32_LIMIT
    && (x < U16_LIMIT && y < U16_LIMIT ==> PointAt(Number(key)) == (x, y))
  }

  lemma KeyStands(x: nat, y: nat)
    requires x < U32_LIMIT && y < U32_LIMIT
    ensures Number(HilbertKey(x, y)) == PositionOf(x, y) < U32_LIMIT
  {
    hide KeyImage, Number, Hilbert.XyToIndex;
    PositionBound(x, y);
    KeyNumber(PositionOf(x, y));
  }

  /** A box is filed under the position of its centre. */
  lemma KeyIsPosition(b: Box, value: Bytes)
    requires b.Fits()
    ensures KeyOfPoint(EntryOf(b, value).key, (b.x0 + b.x1) / 2, (b.y0 + b.y1) / 2)
  {
    hide HilbertKey, PositionOf, PointAt, PadValueWithBbox, Number;
    var x, y := (b.x0 + b.x1) / 2, (b.y0 + b.y1) / 2;
    KeyStands(x, y);
    if x < U16_LIMIT && y < U16_LIMIT {
      PointOfPosition(x, y);
    }
  }

  /** The point at position `i` is filed under the four bytes of `i`, whatever its value. */
  lemma PositionIsKey(i: nat, value: Bytes)
    requires i < U32_LIMIT
    ensures var (x, y) := PointAt(i);
            && x < U16_LIMIT && y < U16_LIMIT
            && |EntryOf(PointBox(x, y), value).key| == 4 && Number(EntryOf(PointBox(x, y), value).key) == i
  {
    hide HilbertKey, PositionOf, PointAt, PadValueWithBbox, Number;
    PositionOfPoint(i);
    KeyStands(PointAt(i).0, PointAt(i).1);
  }

  /** Points are filed in the order of the curve. */
  lemma PointsOnCurve(i: nat, j: nat, v: Bytes, w: Bytes)
    requires i < U32_LIMIT && j < U32_LIMIT
    ensures var (x, y) := PointAt(i);
            var (s, t) := PointAt(j);
            && x < U16_LIMIT && y < U16_LIMIT && s < U16_LIMIT && t < U16_LIMIT
            && (Less(EntryOf(PointBox(x, y), v).key, EntryOf(PointBox(s, t), w).key) <==> i < j)
  {
    hide EntryOf, Less, PointAt, Number;
    PositionIsKey(i, v);
    PositionIsKey(j, w);
    var (p, q) := (PointAt(i), PointAt(j));
    KeyOrder(EntryOf(PointBox(p.0, p.1), v).key, EntryOf(PointBox(q.0, q.1), w).key);
  }

  /** Different points below 2^16 are filed under different keys. */
  lemma PointsApart(x: nat, y: nat, s: nat, t: nat, v: Bytes, w: Bytes)
    requires x < U16_LIMIT && y < U16_LIMIT && s < U16_LIMIT && t < U16_LIMIT
    ensures EntryOf(PointBox(x, y), v).key == EntryOf(PointBox(s, t), w).key <==> (x, y) == (s, t)
  {
    hide HilbertKey, PointAt, Number, PadValueWithBbox;
    KeyIsPosition(PointBox(x, y), v);
    KeyIsPosition(PointBox(s, t), w);
  }

  // ---- Search.

  /** A value without its box. */
  function Stripped(v: Bytes): Bytes {
    if |v| >= BOX_SIZE then v[BOX_SIZE..] else []
  }

  function StrippedAll(vs: seq<Bytes>): (out: seq<Bytes>)
    ensures |out| == |vs| && forall i :: 0 <= i < |vs| ==> out[i] == Stripped(vs[i])
  {
    seq(|vs|, i requires 0 <= i < |vs| => Stripped(vs[i]))
  }

  // The loop that takes the boxes off the values.
  method StripAll(vs: seq<Bytes>) returns (out: seq<Bytes>)
    ensures out == StrippedAll(vs)
  {
    hide Stripped;
    out := [];
    for i := 0 to |vs|
      invariant out == StrippedAll(vs[..i])
    {
      assert StrippedAll(vs[..i + 1]) == StrippedAll(vs[..i]) + [Stripped(vs[i])];
      out := out + [Stripped(vs[i])];
    }
    assert vs[..|vs|] == vs;
  }

  /** What a search is to find among entries: the values without their boxes, but not those of boxes beyond the
      query. */
  ghost function Found(es: seq<Entry>, query: Box): seq<Bytes> {
    if es == [] then [] else
      (if Beyond(query, BoxOf(es[0].value)) then [] else [Stripped(es[0].value)]) + Found(es[1..], query)
  }

  /** The condition of the search leaves out exactly the boxes beyond the query on one of its sides, whatever corners
      are the smaller ones. */
  lemma HitsIff(query: Box, v: Bytes)
    ensures Hits(query)(v) <==> !Beyond(query, BoxOf(v))
  {
    hide BoxOf;
    var b := BoxOf(v);
    if Beyond(query, b) {
      var side :| BeyondOn(side, query, b);
    } else {
      assert !BeyondOn(Left, query, b) && !BeyondOn(Right, query, b) && !BeyondOn(Lower, query, b)
             && !BeyondOn(Upper, query, b);
    }
  }

  /** Selecting by the condition and taking off the boxes is what a search is to find. */
  lemma {:induction false} SelectFinds(es: seq<Entry>, query: Box)
    ensures StrippedAll(Select(Values(es), Hits(query))) == Found(es, query)
  {
    hide BoxOf, Beyond, Stripped, Hits;
    if es != [] {
      HitsIff(query, es[0].value);
      SelectFinds(es[1..], query);
      assert Values(es)[1..] == Values(es[1..]);
      var rest := Select(Values(es[1..]), Hits(query));
      assert StrippedAll([es[0].value] + rest) == [Stripped(es[0].value)] + StrippedAll(rest);
      assert StrippedAll([] + rest) == [] + StrippedAll(rest);
    }
  }

  datatype Item = Item(box: Box, value: Bytes)

  ghost predicate ItemsFit(items: seq<Item>) {
    forall i :: 0 <= i < |items| ==> items[i].box.Fits()
  }

  /** The values of all boxes that are not beyond the query, by looking at every one of them. */
  ghost function BruteForce(items: seq<Item>, query: Box): seq<Bytes> {
    if items == [] then [] else
      (if Beyond(query, items[0].box) then [] else [items[0].value]) + BruteForce(items[1..], query)
  }

  function EntriesOf(items: seq<Item>): (es: seq<Entry>)
    requires ItemsFit(items)
    ensures |es| == |items| && forall i :: 0 <= i < |items| ==> es[i] == EntryOf(items[i].box, items[i].value)
  {
    seq(|items|, i requires 0 <= i < |items| => EntryOf(items[i].box, items[i].value))
  }

  lemma FoundStep(es: seq<Entry>, query: Box)
    requires es != []
    ensures Found(es, query) == (if Beyond(query, BoxOf(es[0].value)) then [] else [Stripped(es[0].value)])
            + Found(es[1..], query)
  {
  }

  /** Searching the entries of items finds what brute force finds among the items. */
  lemma {:induction false} FoundIsBruteForce(items: seq<Item>, query: Box)
    requires ItemsFit(items)
    ensures Found(EntriesOf(items), query) == BruteForce(items, query)
  {
    hide BoxOf, Beyond, HilbertKey, PadValueWithBbox, Found;
    if items == [] {
      NothingFound(query);
    } else {
      FoundStep(EntriesOf(items), query);
      PaddedReads(items[0].box, items[0].value);
      PaddedLong(items[0].box, items[0].value);
      assert EntriesOf(items)[1..] == EntriesOf(items[1..]);
      FoundIsBruteForce(items[1..], query);
    }
  }

  lemma NothingFound(query: Box)
    ensures Found([], query) == []
  {
  }

  lemma PaddedLong(b: Box, value: Bytes)
    ensures |PadValueWithBbox(b, value)| >= BOX_SIZE
  {
  }

  lemma {:induction false} FoundConcat(a: seq<Entry>, b: seq<Entry>, query: Box)
    ensures Found(a + b, query) == Found(a, query) + Found(b, query)
  {
    hide BoxOf, Beyond, Found;
    NothingFound(query);
    if a == [] {
      assert a + b == b;
    } else {
      FoundStep(a + b, query);
      FoundStep(a, query);
      assert (a + b)[1..] == a[1..] + b;
      FoundConcat(a[1..], b, query);
    }
  }

  lemma FoundWithout(es: seq<Entry>, p: nat, query: Box)
    requires p < |es|
    ensures multiset(es[..p] + es[p + 1..]) == multiset(es) - multiset{es[p]}
    ensures multiset(Found(es, query)) == multiset(Found([es[p]], query)) + multiset(Found(es[..p] + es[p + 1..],
            query))
  {
    hide Found;
    assert es == es[..p] + ([es[p]] + es[p + 1..]);
    FoundConcat(es[..p], [es[p]] + es[p + 1..], query);
    FoundConcat([es[p]], es[p + 1..], query);
    FoundConcat(es[..p], es[p + 1..], query);
  }

  /** A search finds the same values, up to order, in any order of the entries. */
  lemma {:induction false} FoundPermutes(a: seq<Entry>, b: seq<Entry>, query: Box)
    requires multiset(a) == multiset(b)
    ensures multiset(Found(a, query)) == multiset(Found(b, query))
    decreases |a|
  {
    hide Found;
    SameSizeSame(a, b);
    if a != [] {
      assert a[0] in multiset(b);
      var p :| 0 <= p < |b| && b[p] == a[0];
      FoundWithout(a, 0, query);
      FoundWithout(b, p, query);
      FoundPermutes(a[..0] + a[1..], b[..p] + b[p + 1..], query);
    }
  }

  // ---- Over all runs.

  datatype HrOperation = HrAdd(box: Box, value: Bytes) | HrFlush | HrCompact

  function ItemsOf(ops: seq<HrOperation>): seq<Item> {
    if ops == [] then [] else
      var front := ItemsOf(ops[..|ops| - 1]);
      match ops[|ops| - 1]
      case HrAdd(box, value) => front + [Item(box, value)]
      case _ => front
  }

  /** The operations on the key-value database. */
  function Lowered(ops: seq<HrOperation>): (low: seq<Operation>)
    requires ItemsFit(ItemsOf(ops))
    ensures |low| == |ops| && forall i :: 0 <= i < |low| ==> !low[i].ReopenOp?
  {
    if ops == [] then [] else
      var front := ops[..|ops| - 1];
      FrontFits(ops);
      Lowered(front) + [match ops[|ops| - 1]
                        case HrAdd(box, value) => var e := EntryOf(box, value); AddOp(e.key, e.value)
                        case HrFlush => FlushOp
                        case HrCompact => CompactOp]
  }

  lemma FrontFits(ops: seq<HrOperation>)
    requires ops != [] && ItemsFit(ItemsOf(ops))
    ensures ItemsFit(ItemsOf(ops[..|ops| - 1])) && (ops[|ops| - 1].HrAdd? ==> ops[|ops| - 1].box.Fits())
  {
    var front, all := ItemsOf(ops[..|ops| - 1]), ItemsOf(ops);
    forall i | 0 <= i < |front| ensures front[i].box.Fits() {
      assert all[i] == front[i];
    }
    if ops[|ops| - 1].HrAdd? {
      assert all[|all| - 1].box == ops[|ops| - 1].box;
    }
  }

  lemma {:induction false} LoweredAdds(ops: seq<HrOperation>)
    requires ItemsFit(ItemsOf(ops))
    ensures Adds(Lowered(ops)) == EntriesOf(ItemsOf(ops))
  {
    hide EntryOf;
    if ops != [] {
      var front := ops[..|ops| - 1];
      FrontFits(ops);
      LoweredAdds(front);
      assert Lowered(ops)[..|ops| - 1] == Lowered(front);
      if ops[|ops| - 1].HrAdd? {
        var e := EntryOf(ops[|ops| - 1].box, ops[|ops| - 1].value);
        assert Entry(e.key, e.value) == e;
        assert EntriesOf(ItemsOf(ops)) == EntriesOf(ItemsOf(front)) + [e];
      }
    }
  }

  lemma BufferHasBytes(t: Tracked, adds: seq<Entry>)
    requires Kept(t) && t.flushed + t.pending == adds
    requires forall i :: 0 <= i < |adds| ==> adds[i].value != []
    ensures DataSize(t.db.buffer) > 0 || t.pending == []
  {
    hide Kept, Inv, InsertAll;
    BufferCounts(t);
    SizeZero(t.db.buffer);
    forall i | 0 <= i < |t.db.buffer| ensures t.db.buffer[i].value != [] {
      assert t.db.buffer[i] in multiset(t.pending);
      var k :| 0 <= k < |t.pending| && t.pending[k] == t.db.buffer[i];
      assert adds[|t.flushed| + k] == t.db.buffer[i];
    }
    assert DataSize(t.db.buffer) == 0 ==> |t.db.buffer| == 0;
  }

  /** Whatever is buffered has bytes, so a flush leaves nothing pending. */
  lemma FlushTakesAll(t: Tracked, db: Db, adds: seq<Entry>)
    requires Kept(t) && t.flushed + t.pending == adds
    requires forall i :: 0 <= i < |adds| ==> adds[i].value != []
    ensures TrackFlush(t, db).pending == [] && TrackFlush(t, db).flushed == adds
  {
    hide Kept, DataSize;
    BufferHasBytes(t, adds);
    if t.pending == [] {
      assert t.flushed + [] == t.flushed;
    }
  }

  /** After any run that ends in a flush or a compaction, a search finds exactly what brute force finds among all added
      boxes. */
  lemma SearchAfterRun(cfg: Database.Config, ops: seq<HrOperation>, query: Box)
    requires cfg.maxLevelCount > 0 && ItemsFit(ItemsOf(ops)) && |ItemsOf(ops)| < U64_LIMIT
    requires ops != [] && !ops[|ops| - 1].HrAdd?
    ensures multiset(Found(Contents(Run(cfg, Lowered(ops)).db), query)) == multiset(BruteForce(ItemsOf(ops), query))
  {
    hide Found, Contents, EntryOf, Flush, Compact, Kept, DataSize, Add, Reopen;
    var low, front := Lowered(ops), ops[..|ops| - 1];
    var adds := EntriesOf(ItemsOf(ops));
    FrontFits(ops);
    LoweredAdds(ops);
    LoweredAdds(front);
    assert low[..|low| - 1] == Lowered(front);
    RunKeeps(cfg, low);
    RunKeeps(cfg, Lowered(front));
    var t := Run(cfg, Lowered(front));
    NothingLost(cfg, Lowered(front));
    forall i | 0 <= i < |adds| ensures adds[i].value != [] {
      EntryLong(ItemsOf(ops)[i].box, ItemsOf(ops)[i].value);
    }
    FlushTakesAll(t, Run(cfg, low).db, adds);
    KeptContents(Run(cfg, low));
    FoundPermutes(Contents(Run(cfg, low).db), adds, query);
    FoundIsBruteForce(ItemsOf(ops), query);
  }

  lemma EntryLong(b: Box, value: Bytes)
    requires b.Fits()
    ensures EntryOf(b, value).value != []
  {
  }

  lemma KeptContents(t: Tracked)
    requires Kept(t)
    ensures multiset(Contents(t.db)) == multiset(t.flushed)
  {
  }

  // ---- Runs with reopening: which boxes have been flushed.

  /** Reopening brings a configuration of its own. */
  datatype HrEvent = Perform(op: HrOperation) | Reopened(listing: seq<Levels.FileId>, config: KvConfig)

  /** The database with the boxes that have been flushed and those added since. */
  datatype HrTracked = HrTracked(kv: Tracked, flushed: seq<Item>, pending: seq<Item>)

  predicate EventFits(ev: HrEvent) {
    (ev.Perform? && ev.op.HrAdd? ==> ev.op.box.Fits()) && (ev.Reopened? ==> ev.config.maxLevelCount > 0)
  }

  function KvOperation(ev: HrEvent): Operation
    requires EventFits(ev)
  {
    match ev
    case Reopened(listing, config) => ReopenOp(listing, ConfigOf(config))
    case Perform(HrFlush) => FlushOp
    case Perform(HrCompact) => CompactOp
    case Perform(HrAdd(box, value)) => var e := EntryOf(box, value); AddOp(e.key, e.value)
  }

  /** Boxes move from pending to flushed when nothing stays pending; reopening forgets the pending ones. */
  function HrStep(t: HrTracked, cfg: Database.Config, ev: HrEvent): HrTracked
    requires cfg.maxLevelCount > 0 && EventFits(ev)
  {
    var kv := Step(t.kv, cfg, KvOperation(ev));
    var all := if ev.Perform? && ev.op.HrAdd? then t.pending + [Item(ev.op.box, ev.op.value)] else t.pending;
    if ev.Reopened? then HrTracked(kv, t.flushed, [])
    else if kv.pending == [] then HrTracked(kv, t.flushed + all, [])
    else HrTracked(kv, t.flushed, all)
  }

  /** The operations on the key-value database. */
  function OpsOf(evs: seq<HrEvent>): (ops: seq<Operation>)
    requires forall i :: 0 <= i < |evs| ==> EventFits(evs[i])
    ensures |ops| == |evs| && forall i :: 0 <= i < |evs| ==> ops[i] == KvOperation(evs[i])
  {
    seq(|evs|, i requires 0 <= i < |evs| => KvOperation(evs[i]))
  }

  function HrRun(cfg: Database.Config, evs: seq<HrEvent>): HrTracked
    requires cfg.maxLevelCount > 0 && forall i :: 0 <= i < |evs| ==> EventFits(evs[i])
  {
    if evs == [] then HrTracked(Tracked(EMPTY, [], []), [], []) else
      var front := evs[..|evs| - 1];
      HrStep(HrRun(cfg, front), ConfigAfter(cfg, OpsOf(front)), evs[|evs| - 1])
  }

  /** Every reopening lists the files there are; the additions can be counted in 64 bits. */
  ghost predicate HrWellFormed(cfg: Database.Config, evs: seq<HrEvent>)
    requires cfg.maxLevelCount > 0
  {
    && (forall i :: 0 <= i < |evs| ==> EventFits(evs[i]))
    && |evs| < U64_LIMIT
    && forall n :: 0 <= n < |evs| && evs[n].Reopened? ==> IsListing(HrRun(cfg, evs[..n]).kv.db, evs[n].listing)
  }

  /** The boxes stand for the entries of the key-value history. */
  ghost predicate Mirrors(t: HrTracked) {
    && ItemsFit(t.flushed) && ItemsFit(t.pending)
    && EntriesOf(t.flushed) == t.kv.flushed && EntriesOf(t.pending) == t.kv.pending
  }

  lemma EntriesJoin(a: seq<Item>, b: seq<Item>)
    requires ItemsFit(a) && ItemsFit(b)
    ensures ItemsFit(a + b) && EntriesOf(a + b) == EntriesOf(a) + EntriesOf(b)
  {
    hide EntryOf;
  }

  lemma StepMirrors(t: HrTracked, cfg: Database.Config, ev: HrEvent)
    requires cfg.maxLevelCount > 0 && EventFits(ev) && Mirrors(t)
    ensures Mirrors(HrStep(t, cfg, ev))
    ensures |HrStep(t, cfg, ev).kv.flushed| + |HrStep(t, cfg, ev).kv.pending| <= |t.kv.flushed| + |t.kv.pending| + 1
  {
    hide Flush, Compact, Database.Add, Reopen, EntryOf, DataSize, InsertLast, EntriesOf, ItemsFit;
    EntriesJoin(t.flushed, t.pending);
    NoEntries();
    if ev.Perform? && ev.op.HrAdd? {
      var item := [Item(ev.op.box, ev.op.value)];
      OneEntry(ev.op.box, ev.op.value);
      EntriesJoin(t.pending, item);
      EntriesJoin(t.flushed, t.pending + item);
    }
  }

  lemma NoEntries()
    ensures ItemsFit([]) && EntriesOf([]) == []
  {
  }

  lemma OneEntry(b: Box, value: Bytes)
    requires b.Fits()
    ensures ItemsFit([Item(b, value)]) && EntriesOf([Item(b, value)]) == [EntryOf(b, value)]
    ensures Entry(EntryOf(b, value).key, EntryOf(b, value).value) == EntryOf(b, value)
  {
    hide EntryOf;
  }

  lemma {:induction false} RunMirrors(cfg: Database.Config, evs: seq<HrEvent>)
    requires cfg.maxLevelCount > 0 && HrWellFormed(cfg, evs)
    ensures Kept(HrRun(cfg, evs).kv) && Mirrors(HrRun(cfg, evs))
    ensures |HrRun(cfg, evs).kv.flushed| + |HrRun(cfg, evs).kv.pending| <= |evs|
  {
    if evs == [] {
      EmptyInv();
      NoEntries();
    } else {
      hide Kept, Mirrors, HrStep, Step, IsListing, KvOperation, ConfigAfter;
      var front := evs[..|evs| - 1];
      forall n | 0 <= n < |front| && front[n].Reopened?
          ensures IsListing(HrRun(cfg, front[..n]).kv.db, front[n].listing) {
        assert front[..n] == evs[..n] && front[n] == evs[n];
      }
      RunMirrors(cfg, front);
      var now := ConfigAfter(cfg, OpsOf(front));
      StepMirrors(HrRun(cfg, front), now, evs[|evs| - 1]);
      KvStepKept(HrRun(cfg, front), now, evs[|evs| - 1]);
    }
  }

  lemma KvStepKept(t: HrTracked, cfg: Database.Config, ev: HrEvent)
    requires cfg.maxLevelCount > 0 && EventFits(ev) && Kept(t.kv) && |t.kv.flushed| + |t.kv.pending| + 1 < U64_LIMIT
    requires ev.Reopened? ==> IsListing(t.kv.db, ev.listing)
    ensures Kept(HrStep(t, cfg, ev).kv)
  {
    hide Kept, Step, IsListing;
    StepKept(t.kv, cfg, KvOperation(ev));
  }

  /** After any run, reopening included, a search finds exactly what brute force finds among the boxes flushed so
      far. */
  lemma SearchFlushed(cfg: Database.Config, evs: seq<HrEvent>, query: Box)
    requires cfg.maxLevelCount > 0 && HrWellFormed(cfg, evs)
    ensures var t := HrRun(cfg, evs);
            multiset(Found(Contents(t.kv.db), query)) == multiset(BruteForce(t.flushed, query))
  {
    hide Found, Contents, Kept, HrRun, EntriesOf;
    var t := HrRun(cfg, evs);
    RunMirrors(cfg, evs);
    KeptContents(t.kv);
    FoundPermutes(Contents(t.kv.db), t.kv.flushed, query);
    FoundIsBruteForce(t.flushed, query);
  }

  // ---- The object.

  /** Every file was written with the reduction of the boxes. */
  ghost predicate Reduced(cfgs: Configs) {
    forall id :: id in cfgs ==> cfgs[id].reduce == Some(ReducedValue)
  }

  class HrDb {
    const kvdb: KvDb

    ghost predicate Valid()
      reads kvdb, kvdb.buffer, kvdb.levelManager
    {
      && kvdb.Valid() && kvdb.config.writer.reduce == Some(ReducedValue)
      && Reduced(kvdb.cfgs)
    }

    constructor (kvdb: KvDb)
      ensures this.kvdb == kvdb
    {
      this.kvdb := kvdb;
    }

    /** Opens the path with the reduction of the boxes; the caller may not bring one of its own. */
    static method Open(config: KvConfig, flags: OpenFlags, found: Option<Directory>, ghost before: Db,
            ghost full: ReaderMap, ghost cfgs: Configs)
      returns (r: Option<HrDb>)
      requires config.writer.Allowed() && config.maxLevelCount > 0
      ensures config.writer.reduce.Some? ==> r.None?
      ensures config.writer.reduce.None? && found.None? ==> (r.Some? <==> flags.createIfMissing)
      ensures config.writer.reduce.None? && found.Some? ==>
                (r.Some? <==> !flags.errorIfExists && (flags.deleteIfExists || Loadable(found.value)))
      ensures r.Some? ==>
                && fresh(r.value) && fresh(r.value.kvdb) && fresh(r.value.kvdb.buffer)
                     && fresh(r.value.kvdb.levelManager)
                && r.value.kvdb.config == config.(writer := config.writer.(reduce := Some(ReducedValue)))
      ensures r.Some? && (found.None? || flags.deleteIfExists) ==> r.value.Valid() && r.value.kvdb.db == EMPTY
      ensures r.Some? && found.Some? && !flags.deleteIfExists ==>
                && r.value.kvdb.disk == found.value.files
                     && r.value.kvdb.levelManager.State() == LoadedState(found.value)
                && KvOpening.ReadersOf(r.value.kvdb.readers, found.value.files, NamesOf(IdsOf(found.value.names)))
      ensures r.Some? && found.Some? && !flags.deleteIfExists && LeftBehind(found.value, before, full, cfgs)
                && Reduced(cfgs) ==>
                r.value.Valid() && r.value.kvdb.db == before.(buffer := [])
    {
      hide KvDb.Valid, LeftBehind, Loadable, LoadedState, KvOpening.ReadersOf;
      if config.writer.reduce.Some? {
        return None;
      }
      var kvdb := KvDb.Open(config.(writer := config.writer.(reduce := Some(ReducedValue))), flags, found, before,
          full, cfgs);
      if kvdb.None? {
        return None;
      }
      var hrdb := new HrDb(kvdb.value);
      r := Some(hrdb);
    }

    method AddBox(box: Box, value: Bytes)
      requires Valid() && box.Fits() && NamesLeft(kvdb.db.lm)
      requires kvdb.config.writer.Allowed() && Room(Held(kvdb.db) + multiset{EntryOf(box, value)}, kvdb.config.writer)
      modifies kvdb, kvdb.buffer, kvdb.levelManager
      ensures Valid() && kvdb.Config().maxLevelCount > 0
              && kvdb.db == Database.Add(old(kvdb.db), kvdb.Config(), EntryOf(box, value))
      ensures KeyOfPoint(EntryOf(box, value).key, (box.x0 + box.x1) / 2, (box.y0 + box.y1) / 2)
      ensures BoxOf(EntryOf(box, value).value) == box && EntryOf(box, value).value[BOX_SIZE..] == value
    {
      hide KvDb.Valid, PadValueWithBbox, Average, HilbertKey, Room, Database.Add, KeyOfPoint, BoxOf;
      KeyIsPosition(box, value);
      PaddedReads(box, value);
      var x, y := Average(box.x0, box.x1), Average(box.y0, box.y1);
      kvdb.Add(HilbertKey(x, y), PadValueWithBbox(box, value));
    }

    /** Adds the box of the point. */
    method AddPoint(x: nat, y: nat, value: Bytes)
      requires Valid() && x < U32_LIMIT && y < U32_LIMIT && NamesLeft(kvdb.db.lm)
      requires kvdb.config.writer.Allowed()
               && Room(Held(kvdb.db) + multiset{EntryOf(PointBox(x, y), value)}, kvdb.config.writer)
      modifies kvdb, kvdb.buffer, kvdb.levelManager
      ensures Valid() && kvdb.Config().maxLevelCount > 0
              && kvdb.db == Database.Add(old(kvdb.db), kvdb.Config(), EntryOf(PointBox(x, y), value))
      ensures KeyOfPoint(EntryOf(PointBox(x, y), value).key, x, y)
      ensures BoxOf(EntryOf(PointBox(x, y), value).value) == PointBox(x, y)
              && EntryOf(PointBox(x, y), value).value[BOX_SIZE..] == value
    {
      hide KvDb.Valid, PadValueWithBbox, HilbertKey, Room, Database.Add, KeyOfPoint, BoxOf;
      assert Average(x, x) == x && Average(y, y) == y;
      KeyIsPosition(PointBox(x, y), value);
      PaddedReads(PointBox(x, y), value);
      kvdb.Add(HilbertKey(x, y), PadValueWithBbox(PointBox(x, y), value));
    }

    /** The values of the flushed boxes that are not beyond the query, in file order, without their boxes. */
    method Search(query: Box) returns (values: seq<Bytes>)
      requires Valid()
      ensures values == Found(Contents(kvdb.db), query)
    {
      hide KvDb.Valid, Hits, Contents, Select, Covers, Found;
      AllCovered(query);
      SelectFinds(Contents(kvdb.db), query);
      var hits := kvdb.Traverse(Hits(query), []);
      assert [] + Select(Values(Contents(kvdb.db)), Hits(query)) == Select(Values(Contents(kvdb.db)), Hits(query));
      values := StripAll(hits);
    }

    lemma AllCovered(query: Box)
      requires Valid()
      ensures AllCover(kvdb.db.files, kvdb.cfgs, Hits(query))
    {
      hide KvDb.Valid, Hits, Covers;
      forall id | id in kvdb.db.files && id in kvdb.cfgs ensures Covers(kvdb.cfgs[id], Hits(query)) {
        HitsCover(kvdb.cfgs[id], query);
      }
    }

    method Compact()
      requires Valid() && NamesLeft(kvdb.db.lm) && kvdb.config.writer.Allowed()
               && Room(Held(kvdb.db), kvdb.config.writer)
      modifies kvdb, kvdb.buffer, kvdb.levelManager
      ensures Valid() && kvdb.db == Database.Compact(old(kvdb.db))
    {
      hide KvDb.Valid, Room, Database.Compact;
      kvdb.Compact();
    }

    method Flush()
      requires Valid() && NamesLeft(kvdb.db.lm) && kvdb.config.writer.Allowed()
               && Room(Held(kvdb.db), kvdb.config.writer)
      modifies kvdb, kvdb.buffer, kvdb.levelManager
      ensures Valid() && kvdb.Config().maxLevelCount > 0 && kvdb.db == Database.Flush(old(kvdb.db), kvdb.Config())
    {
      hide KvDb.Valid, Room, Database.Flush;
      kvdb.Flush();
    }
  }
}
