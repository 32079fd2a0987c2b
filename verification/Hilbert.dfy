// The Hilbert transform on 32-bit words: the parallel code computes what the digit-by-digit automaton computes.
module Hilbert {
  import opened Words
  import opened PrefixScans
  import opened HilbertCurves

  function Deinterleave(x: bv32): bv32 {
    var x := x & 0x55555555;
    var x := (x | (x >> 1)) & 0x33333333;
    var x := (x | (x >> 2)) & 0x0F0F0F0F;
    var x := (x | (x >> 4)) & 0x00FF00FF;
    (x | (x >> 8)) & 0x0000FFFF
  }

  function Interleave(x: bv32): bv32 {
    var x := (x | (x << 8)) & 0x00FF00FF;
    var x := (x | (x << 4)) & 0x0F0F0F0F;
    var x := (x | (x << 2)) & 0x33333333;
    (x | (x << 1)) & 0x55555555
  }

  function PrefixScan(x: bv32): bv32 {
    var x := (x >> 8) ^ x;
    var x := (x >> 4) ^ x;
    var x := (x >> 2) ^ x;
    (x >> 1) ^ x
  }

  function Descan(x: bv32): bv32 {
    x ^ (x >> 1)
  }

  /** The words of the scan: two for the matrices, two for the vectors. */
  datatype ScanWords = ScanWords(a: bv32, b: bv32, c: bv32, d: bv32)

  function FirstWords(x: bv32, y: bv32): ScanWords {
    var a := WordXor(x, y);
    var b := WordNot(a);
    var c := WordNot(WordOr(x, y));
    var d := WordAnd(x, WordNot(y));
    ScanWords(FirstA(a, b), FirstB(a), FirstC(b, c, d), FirstD(a, c, d))
  }

  function FirstA(a: bv32, b: bv32): bv32 {
    WordOr(a, ShiftRight(b, 1))
  }

  function FirstB(a: bv32): bv32 {
    WordXor(ShiftRight(a, 1), a)
  }

  function FirstC(b: bv32, c: bv32, d: bv32): bv32 {
    WordXor(WordXor(ShiftRight(c, 1), WordAnd(b, ShiftRight(d, 1))), c)
  }

  function FirstD(a: bv32, c: bv32, d: bv32): bv32 {
    WordXor(WordXor(WordAnd(a, ShiftRight(c, 1)), ShiftRight(d, 1)), d)
  }

  function DotWords(a: bv32, b: bv32, c: bv32, d: bv32, s: nat): bv32 {
    WordXor(WordAnd(a, ShiftRight(c, s)), WordAnd(b, ShiftRight(d, s)))
  }

  function RoundWords(w: ScanWords, s: nat): ScanWords {
    ScanWords(DotWords(w.a, w.b, w.a, w.b, s), DotWords(w.a, w.b, w.b, WordXor(w.a, w.b), s),
              WordXor(w.c, DotWords(w.a, w.b, w.c, w.d, s)),
                  WordXor(w.d, DotWords(w.b, WordXor(w.a, w.b), w.c, w.d, s)))
  }

  function StateWords(x: bv32, y: bv32): ScanWords {
    RoundWords(RoundWords(RoundWords(FirstWords(x, y), 2), 4), 8)
  }

  /** The 16 high digits of a point whose coordinates are aligned to 16 bits. */
  function AlignedIndex(x: bv32, y: bv32): bv32 {
    var w := StateWords(x, y);
    var a := WordXor(w.c, ShiftRight(w.c, 1));
    var b := WordXor(w.d, ShiftRight(w.d, 1));
    var i0 := WordXor(x, y);
    var i1 := WordOr(b, WordNot(WordOr(i0, a)));
    Woven(i1, i0)
  }

  function Pair(p: bv32, q: bv32): bv32 {
    (p << 1) | q
  }

  function Woven(i1: bv32, i0: bv32): bv32 {
    Pair(Interleave(i1), Interleave(i0))
  }

  function XyToIndex(n: nat, x: bv32, y: bv32): bv32
    requires 1 <= n <= 16
  {
    ShiftRight(AlignedIndex(ShiftLeft(x, 16 - n), ShiftLeft(y, 16 - n)), 32 - 2 * n)
  }

  function AlignedPoint(i: bv32): (bv32, bv32) {
    var i0 := Deinterleave(i);
    var i1 := Deinterleave(Half(i));
    var t0 := WordNot(WordOr(i0, i1));
    var t1 := WordAnd(i0, i1);
    var prefixT0 := PrefixScan(t0);
    var prefixT1 := PrefixScan(t1);
    var a := WordOr(WordAnd(WordNot(i0), prefixT1), WordAnd(i0, prefixT0));
    (WordXor(a, i1), WordXor(WordXor(a, i0), i1))
  }

  function IndexToXy(n: nat, i: bv32): (bv32, bv32)
    requires 1 <= n <= 16
  {
    var p := AlignedPoint(ShiftLeft(i, 32 - 2 * n));
    (ShiftRight(p.0, 16 - n), ShiftRight(p.1, 16 - n))
  }

  // ---- The identities of the bit helpers.

  lemma WeaveInverse(x: bv32)
    requires x <= 0xFFFF
    ensures Deinterleave(Interleave(x)) == x
  {
  }

  lemma ScanInverse(x: bv32)
    requires x <= 0xFFFF
    ensures Descan(PrefixScan(x)) == x && PrefixScan(x) <= 0xFFFF
  {
  }

  lemma DescanInverse(x: bv32)
    requires x <= 0xFFFF
    ensures PrefixScan(Descan(x)) == x && Descan(x) <= 0xFFFF
  {
  }

  lemma UnweaveInverse(i: bv32)
    ensures Woven(Deinterleave(i >> 1), Deinterleave(i)) == i
  {
  }

  lemma InterleaveStep(x: bv32)
    requires x <= 0xFFFF
    ensures Half(Half(Interleave(x))) == Interleave(Half(x))
  {
  }

  lemma InterleaveLow(x: bv32)
    requires x <= 0xFFFF
    ensures (Low(Interleave(x)) <==> Low(x)) && !Low(Half(Interleave(x)))
    ensures Interleave(x) <= 0x55555555 && Half(x) <= 0xFFFF
  {
  }

  lemma PairStep(p: bv32, q: bv32)
    requires p <= 0x55555555 && !Low(Half(p)) && !Low(Half(q))
    ensures (Low(Half(Pair(p, q))) <==> Low(p)) && (Low(Pair(p, q)) <==> Low(q))
  {
  }

  lemma PairHalves(p: bv32, q: bv32)
    requires p <= 0x55555555 && !Low(Half(p)) && !Low(Half(q))
    ensures Half(Half(Pair(p, q))) == Pair(Half(Half(p)), Half(Half(q)))
  {
  }

  /** Weaving puts the low bits of the two words into the lowest digit. */
  lemma WovenStep(h: bv32, l: bv32)
    requires h <= 0xFFFF && l <= 0xFFFF
    ensures Half(Half(Woven(h, l))) == Woven(Half(h), Half(l))
    ensures (Low(Half(Woven(h, l))) <==> Low(h)) && (Low(Woven(h, l)) <==> Low(l))
    ensures Half(h) <= 0xFFFF && Half(l) <= 0xFFFF
  {
    hide Half, Low, Interleave, Pair;
    InterleaveStep(h);
    InterleaveStep(l);
    InterleaveLow(h);
    InterleaveLow(l);
    PairStep(Interleave(h), Interleave(l));
    PairHalves(Interleave(h), Interleave(l));
  }

  lemma DeinterleaveStep(i: bv32)
    ensures Half(Deinterleave(i)) == Deinterleave(Half(Half(i))) && (Low(Deinterleave(i)) <==> Low(i))
    ensures Deinterleave(i) <= 0xFFFF
  {
  }

  // ---- The words of the scan are the scan of the bits.

  lemma DotBits(a: bv32, b: bv32, c: bv32, d: bv32, s: nat)
    requires Small(a) && Small(b) && Small(c) && Small(d)
    ensures Small(DotWords(a, b, c, d, s))
    ensures BitsOf(DotWords(a, b, c, d, s), 16) == Dot(BitsOf(a, 16), BitsOf(b, 16), BitsOf(c, 16), BitsOf(d, 16), s)
  {
    hide Small, BitsOf, ShiftRight, And, Shift, Xor, WordAnd, WordXor;
    SmallRight(c, s);
    SmallRight(d, s);
    SmallAnd(a, ShiftRight(c, s));
    SmallAnd(b, ShiftRight(d, s));
    SmallXor(WordAnd(a, ShiftRight(c, s)), WordAnd(b, ShiftRight(d, s)));
  }

  /** The bits of the four words. */
  ghost function QuadOf(w: ScanWords): (q: Quad)
    ensures q.Width(16)
  {
    Quad(BitsOf(w.a, 16), BitsOf(w.b, 16), BitsOf(w.c, 16), BitsOf(w.d, 16))
  }

  ghost predicate SmallWords(w: ScanWords) {
    Small(w.a) && Small(w.b) && Small(w.c) && Small(w.d)
  }

  lemma RoundBits(w: ScanWords, s: nat)
    requires SmallWords(w)
    ensures SmallWords(RoundWords(w, s)) && QuadOf(RoundWords(w, s)) == Round(QuadOf(w), s)
  {
    hide Small, BitsOf, DotWords, Dot, Xor, WordXor;
    SmallXor(w.a, w.b);
    DotBits(w.a, w.b, w.a, w.b, s);
    DotBits(w.a, w.b, w.b, WordXor(w.a, w.b), s);
    DotBits(w.a, w.b, w.c, w.d, s);
    DotBits(w.b, WordXor(w.a, w.b), w.c, w.d, s);
    SmallXor(w.c, DotWords(w.a, w.b, w.c, w.d, s));
    SmallXor(w.d, DotWords(w.b, WordXor(w.a, w.b), w.c, w.d, s));
  }

  lemma FirstBits(x: bv32, y: bv32)
    requires Small(x) && Small(y)
    ensures SmallWords(FirstWords(x, y)) && QuadOf(FirstWords(x, y)) == FirstRound(BitsOf(x, 16), BitsOf(y, 16))
  {
    hide Small, BitsOf, And, Shift, Xor, Or, Not, ShiftRight, WordXor, WordOr, WordAnd, WordNot, FirstA, FirstB, FirstC;
    hide FirstD;
    var a := WordXor(x, y);
    var b, c, d := WordNot(a), WordNot(WordOr(x, y)), WordAnd(x, WordNot(y));
    SmallXor(x, y);
    SmallNot(a);
    SmallOr(x, y);
    SmallNot(WordOr(x, y));
    SmallNot(y);
    SmallAnd(x, WordNot(y));
    FirstMatrixBits(a, b);
    FirstCBits(b, c, d);
    FirstDBits(a, c, d);
  }

  lemma FirstMatrixBits(a: bv32, b: bv32)
    requires Small(a) && Small(b)
    ensures Small(FirstA(a, b)) && Small(FirstB(a))
    ensures BitsOf(FirstA(a, b), 16) == Or(BitsOf(a, 16), Shift(BitsOf(b, 16), 1))
    ensures BitsOf(FirstB(a), 16) == Xor(Shift(BitsOf(a, 16), 1), BitsOf(a, 16))
  {
    hide Small, BitsOf, Shift, Xor, Or, ShiftRight, WordOr, WordXor;
    SmallRight(b, 1);
    SmallRight(a, 1);
    SmallOr(a, ShiftRight(b, 1));
    SmallXor(ShiftRight(a, 1), a);
  }

  lemma FirstCBits(b: bv32, c: bv32, d: bv32)
    requires Small(b) && Small(c) && Small(d)
    ensures Small(FirstC(b, c, d))
    ensures BitsOf(FirstC(b, c, d), 16)
         == Xor(Xor(Shift(BitsOf(c, 16), 1), And(BitsOf(b, 16), Shift(BitsOf(d, 16), 1))), BitsOf(c, 16))
  {
    hide Small, BitsOf, Shift, Xor, And, ShiftRight, WordAnd, WordXor;
    SmallRight(c, 1);
    SmallRight(d, 1);
    SmallAnd(b, ShiftRight(d, 1));
    SmallXor(ShiftRight(c, 1), WordAnd(b, ShiftRight(d, 1)));
    SmallXor(WordXor(ShiftRight(c, 1), WordAnd(b, ShiftRight(d, 1))), c);
  }

  lemma FirstDBits(a: bv32, c: bv32, d: bv32)
    requires Small(a) && Small(c) && Small(d)
    ensures Small(FirstD(a, c, d))
    ensures BitsOf(FirstD(a, c, d), 16)
         == Xor(Xor(And(BitsOf(a, 16), Shift(BitsOf(c, 16), 1)), Shift(BitsOf(d, 16), 1)), BitsOf(d, 16))
  {
    hide Small, BitsOf, Shift, Xor, And, ShiftRight, WordAnd, WordXor;
    SmallRight(c, 1);
    SmallRight(d, 1);
    SmallAnd(a, ShiftRight(c, 1));
    SmallXor(WordAnd(a, ShiftRight(c, 1)), ShiftRight(d, 1));
    SmallXor(WordXor(WordAnd(a, ShiftRight(c, 1)), ShiftRight(d, 1)), d);
  }

  /** The four rounds with shifts 1, 2, 4 and 8 leave the sequential state at every bit. */
  lemma RoundsFold(x: bv32, y: bv32)
    requires Small(x) && Small(y)
    ensures var w := StateWords(x, y);
            && Small(w.c) && Small(w.d)
            && forall j :: 0 <= j < 16 ==>
                 Vec(BitsOf(w.c, 16)[j], BitsOf(w.d, 16)[j]) == Sweep(BitsOf(x, 16), BitsOf(y, 16), 0, j + 1)
  {
    hide Small, BitsOf, FirstWords, RoundWords, FirstRound, Round, Sweep;
    var w1 := FirstWords(x, y);
    var w2 := RoundWords(w1, 2);
    var w4 := RoundWords(w2, 4);
    FirstBits(x, y);
    RoundBits(w1, 2);
    RoundBits(w2, 4);
    RoundBits(w4, 8);
    ThreeRounds(QuadOf(w1));
    var w := StateWords(x, y);
    assert w == RoundWords(w4, 8) && SmallWords(w);
    assert Scan(BitsOf(x, 16), BitsOf(y, 16)) == (QuadOf(w).c, QuadOf(w).d);
    ScanIsSweep(BitsOf(x, 16), BitsOf(y, 16));
  }

  lemma ThreeRounds(q: Quad)
    requires q.Width(16)
    ensures var r := Round(Round(Round(q, 2), 4), 8);
            Rounds(q, 2) == (r.c, r.d)
  {
    hide Round;
    var q4 := Round(q, 2);
    var q8 := Round(q4, 4);
    var q16 := Round(q8, 8);
    assert Rounds(q, 2) == Rounds(q4, 4);
    assert Rounds(q4, 4) == Rounds(q8, 8);
    assert Rounds(q8, 8) == Rounds(q16, 16);
  }

  // ---- Digits of an index.

  function Zip(h: Bits, l: Bits): (ds: Digits)
    requires |h| == |l|
    ensures |ds| == |h| && forall j :: 0 <= j < |h| ==> ds[j] == (h[j], l[j])
  {
    seq(|h|, j requires 0 <= j < |h| => (h[j], l[j]))
  }

  /** The lowest `n` base-4 digits of an index, highest first. */
  function DigitsOf(i: bv32, n: nat): (ds: Digits)
    ensures |ds| == n
  {
    if n == 0 then [] else DigitsOf(Half(Half(i)), n - 1) + [(Low(Half(i)), Low(i))]
  }

  lemma {:induction false} WovenDigits(h: bv32, l: bv32, n: nat)
    requires Small(h) && Small(l)
    ensures DigitsOf(Woven(h, l), n) == Zip(BitsOf(h, n), BitsOf(l, n))
    decreases n
  {
    hide Half, Low, Woven;
    if n > 0 {
      WovenStep(h, l);
      WovenDigits(Half(h), Half(l), n - 1);
    }
  }

  lemma {:induction false} DeinterleaveDigits(i: bv32, n: nat)
    ensures DigitsOf(i, n) == Zip(BitsOf(Deinterleave(Half(i)), n), BitsOf(Deinterleave(i), n))
    decreases n
  {
    hide Half, Low, Deinterleave;
    if n > 0 {
      DeinterleaveStep(i);
      DeinterleaveStep(Half(i));
      DeinterleaveDigits(Half(Half(i)), n - 1);
    }
  }

  lemma {:induction false} DigitsKept(i: bv32, n: nat, s: nat)
    ensures DigitsOf(ShiftRight(i, 2 * s), n) == DigitsOf(i, n + s)[..n]
    decreases s
  {
    hide Half, Low;
    if s > 0 {
      assert ShiftRight(i, 2 * s) == ShiftRight(Half(i), 2 * s - 1) == ShiftRight(Half(Half(i)), 2 * (s - 1));
      DigitsKept(Half(Half(i)), n, s - 1);
      assert DigitsOf(i, n + s) == DigitsOf(Half(Half(i)), n + s - 1) + [(Low(Half(i)), Low(i))];
    }
  }

  lemma DigitsTwice(i: bv32, n: nat)
    requires Below(i, 2 * n) && n <= 15
    ensures DigitsOf(Twice(Twice(i)), n + 1)[..n] == DigitsOf(i, n) && Below(Twice(Twice(i)), 2 * n + 2)
  {
    hide Half, Twice, Low;
    BelowGrows(i, 2 * n, 31);
    TopBit(i);
    HalfTwice(i);
    BitsTwice(i, 2 * n);
    BelowGrows(Twice(i), 2 * n + 1, 31);
    TopBit(Twice(i));
    HalfTwice(Twice(i));
    BitsTwice(Twice(i), 2 * n + 1);
  }

  lemma {:induction false} DigitsLeft(i: bv32, n: nat, s: nat)
    requires Below(i, 2 * n) && n + s <= 16
    ensures DigitsOf(ShiftLeft(i, 2 * s), n + s)[..n] == DigitsOf(i, n) && Below(ShiftLeft(i, 2 * s), 2 * (n + s))
    decreases s
  {
    hide Below, Twice, DigitsOf;
    if s > 0 {
      DigitsLeft(i, n, s - 1);
      assert ShiftLeft(i, 2 * s) == Twice(ShiftLeft(i, 2 * s - 1)) == Twice(Twice(ShiftLeft(i, 2 * (s - 1))));
      DigitsTwice(ShiftLeft(i, 2 * (s - 1)), n + s - 1);
      var ds := DigitsOf(ShiftLeft(i, 2 * s), n + s);
      assert ds[..n] == ds[..n + s - 1][..n];
    }
  }

  lemma {:induction false} SameDigits(i: bv32, j: bv32, n: nat)
    requires Below(i, 2 * n) && Below(j, 2 * n) && DigitsOf(i, n) == DigitsOf(j, n)
    ensures i == j
    decreases n
  {
    hide Half, Low;
    if n > 0 {
      SameFront(DigitsOf(Half(Half(i)), n - 1), (Low(Half(i)), Low(i)), DigitsOf(Half(Half(j)), n - 1),
          (Low(Half(j)), Low(j)));
      assert ShiftRight(i, 2 * n) == ShiftRight(Half(i), 2 * n - 1) == ShiftRight(Half(Half(i)), 2 * (n - 1));
      assert ShiftRight(j, 2 * n) == ShiftRight(Half(j), 2 * n - 1) == ShiftRight(Half(Half(j)), 2 * (n - 1));
      SameDigits(Half(Half(i)), Half(Half(j)), n - 1);
      FromHalves(Half(i), Half(j));
      FromHalves(i, j);
    }
  }

  // ---- Both directions compute the automaton.

  lemma AlignedDigits(x: bv32, y: bv32)
    requires Small(x) && Small(y)
    ensures DigitsOf(AlignedIndex(x, y), 16) == Encode(BitsOf(x, 16), BitsOf(y, 16), ORIGIN)
  {
    hide Small, BitsOf, StateWords, Woven, ShiftRight, WordXor, WordOr, WordNot, DigitsOf, Sweep, Encode, Xor, Or, Not;
    hide Shift;
    var w := StateWords(x, y);
    RoundsFold(x, y);
    SmallRight(w.c, 1);
    SmallRight(w.d, 1);
    var a := WordXor(w.c, ShiftRight(w.c, 1));
    var b := WordXor(w.d, ShiftRight(w.d, 1));
    SmallXor(w.c, ShiftRight(w.c, 1));
    SmallXor(w.d, ShiftRight(w.d, 1));
    var i0 := WordXor(x, y);
    SmallXor(x, y);
    SmallOr(i0, a);
    SmallNot(WordOr(i0, a));
    var i1 := WordOr(b, WordNot(WordOr(i0, a)));
    SmallOr(b, WordNot(WordOr(i0, a)));
    WovenDigits(i1, i0, 16);
    DigitsFromStates(BitsOf(x, 16), BitsOf(y, 16), BitsOf(w.c, 16), BitsOf(w.d, 16));
  }

  lemma DigitFromStates(x: Bits, y: Bits, c: Bits, d: Bits, j: nat)
    requires j < |x| == |y| == |c| == |d|
    requires forall j :: 0 <= j < |x| ==> Vec(c[j], d[j]) == Sweep(x, y, 0, j + 1)
    ensures Sweep(x, y, 0, j) == Vec(j > 0 && c[j - 1], j > 0 && d[j - 1])
    ensures Advance(x[j], y[j], Sweep(x, y, 0, j)) == Vec(c[j], d[j])
  {
    hide Advance;
    assert Sweep(x, y, 0, j + 1) == Advance(x[j], y[j], Sweep(x, y, 0, j));
    if j > 0 {
      assert Vec(c[j - 1], d[j - 1]) == Sweep(x, y, 0, j);
    }
  }

  /** Recovering the digits from the states at every bit. */
  lemma DigitsFromStates(x: Bits, y: Bits, c: Bits, d: Bits)
    requires |x| == |y| == |c| == |d|
    requires forall j :: 0 <= j < |x| ==> Vec(c[j], d[j]) == Sweep(x, y, 0, j + 1)
    ensures RecoveredDigits(x, y, c, d) == Encode(x, y, ORIGIN)
  {
    hide Sweep, Encode, DigitAt, RecoveredDigits;
    forall j | 0 <= j < |x| ensures RecoveredDigits(x, y, c, d)[j] == Encode(x, y, ORIGIN)[j] {
      FirstDigits(x, y, j);
      DigitFromStates(x, y, c, d, j);
      RecoveredAt(x, y, c, d, j);
    }
  }

  /** The last lines of the forward transform. */
  function RecoveredDigits(x: Bits, y: Bits, c: Bits, d: Bits): (ds: Digits)
    requires |x| == |y| == |c| == |d|
    ensures |ds| == |x|
  {
    var a, b, i0 := Xor(c, Shift(c, 1)), Xor(d, Shift(d, 1)), Xor(x, y);
    Zip(Or(b, Not(Or(i0, a))), i0)
  }

  lemma RecoveredAt(x: Bits, y: Bits, c: Bits, d: Bits, j: nat)
    requires j < |x| == |y| == |c| == |d|
    ensures var before := Vec(j > 0 && c[j - 1], j > 0 && d[j - 1]);
            Advance(x[j], y[j], before) == Vec(c[j], d[j]) ==>
                RecoveredDigits(x, y, c, d)[j] == DigitAt(x[j], y[j], before)
  {
    hide Advance;
  }

  lemma FirstDigits(x: Bits, y: Bits, j: nat)
    requires j < |x| == |y|
    ensures Encode(x, y, ORIGIN)[j] == DigitAt(x[j], y[j], Sweep(x, y, 0, j))
  {
    hide DigitAt;
    EncodeAt(x, y, 0, j);
    assert x[0..] == x && y[0..] == y && Sweep(x, y, 0, 0) == ORIGIN;
  }

  /** Every bit of a prefix word is the exclusive or of the bits down to it. */
  lemma PrefixBit(t: bv32, j: nat)
    requires Small(t) && j < 16
    ensures Small(PrefixScan(t))
    ensures j == 0 ==> BitsOf(PrefixScan(t), 16)[j] == BitsOf(t, 16)[j]
    ensures j > 0 ==> BitsOf(PrefixScan(t), 16)[j] == (BitsOf(t, 16)[j] != BitsOf(PrefixScan(t), 16)[j - 1])
  {
    hide BitsOf, Descan, PrefixScan;
    ScanInverse(t);
    DescanBits(PrefixScan(t));
  }

  lemma DescanIs(x: bv32)
    ensures Descan(x) == WordXor(x, ShiftRight(x, 1))
  {
    RightOne(x);
  }

  lemma DescanBits(x: bv32)
    requires Small(x)
    ensures BitsOf(Descan(x), 16) == Xor(BitsOf(x, 16), Shift(BitsOf(x, 16), 1))
  {
    hide Small, BitsOf, Descan, WordXor, ShiftRight;
    DescanIs(x);
    SmallRight(x, 1);
    SmallXor(x, ShiftRight(x, 1));
  }

  /** The words the inverse transform works with, and the state they hold. */
  lemma {:induction false} PrefixStates(i1: bv32, i0: bv32, j: nat)
    requires Small(i1) && Small(i0) && j < 16
    ensures var p, q := PrefixScan(WordNot(WordOr(i0, i1))), PrefixScan(WordAnd(i0, i1));
            Small(p) && Small(q) && Vec(BitsOf(p, 16)[j], BitsOf(q, 16)[j]) ==
                TurnSweep(Zip(BitsOf(i1, 16), BitsOf(i0, 16)), j + 1)
  {
    hide Small, BitsOf, PrefixScan, WordNot, WordOr, WordAnd, Zip, Not, Or, And;
    var t0, t1 := WordNot(WordOr(i0, i1)), WordAnd(i0, i1);
    SmallOr(i0, i1);
    SmallNot(WordOr(i0, i1));
    SmallAnd(i0, i1);
    PrefixBit(t0, j);
    PrefixBit(t1, j);
    var ds := Zip(BitsOf(i1, 16), BitsOf(i0, 16));
    assert TurnSweep(ds, j + 1) == Turn(ds[j], TurnSweep(ds, j));
    assert ds[j] == (BitsOf(i1, 16)[j], BitsOf(i0, 16)[j]);
    assert BitsOf(t0, 16)[j] == !(ds[j].0 || ds[j].1) && BitsOf(t1, 16)[j] == (ds[j].0 && ds[j].1);
    if j == 0 {
      assert TurnSweep(ds, 0) == ORIGIN;
    } else {
      PrefixStates(i1, i0, j - 1);
    }
  }

  lemma PointBits(h: Bits, l: Bits, p: Bits, q: Bits)
    requires |h| == |l| == |p| == |q|
    requires forall j :: 0 <= j < |h| ==> Vec(p[j], q[j]) == TurnSweep(Zip(h, l), j + 1)
    ensures var a := Or(And(Not(l), q), And(l, p));
            Xor(a, h) == DecodeX(Zip(h, l), ORIGIN) && Xor(Xor(a, l), h) == DecodeY(Zip(h, l), ORIGIN)
  {
    hide Turn, TurnSweep, DecodeX, DecodeY, And, Or, Not, Xor, Zip;
    var a, ds := Or(And(Not(l), q), And(l, p)), Zip(h, l);
    forall j | 0 <= j < |h| ensures Xor(a, h)[j] == DecodeX(ds, ORIGIN)[j]
        && Xor(Xor(a, l), h)[j] == DecodeY(ds, ORIGIN)[j] {
      FirstPoints(ds, j);
      TurnKept(ds, j);
    }
  }

  lemma FirstPoints(ds: Digits, j: nat)
    requires j < |ds|
    ensures DecodeX(ds, ORIGIN)[j] == XOf(ds[j], TurnSweep(ds, j))
            && DecodeY(ds, ORIGIN)[j] == YOf(ds[j], TurnSweep(ds, j))
  {
    hide XOf, YOf, Turn;
    DecodeAt(ds, 0, j);
    assert ds[0..] == ds && TurnSweep(ds, 0) == ORIGIN;
  }

  /** A digit leaves the state bit that it reads as it is. */
  lemma TurnKept(ds: Digits, j: nat)
    requires j < |ds|
    ensures var before, after := TurnSweep(ds, j), TurnSweep(ds, j + 1);
            if ds[j].1 then after.p == before.p else after.q == before.q
  {
    assert TurnSweep(ds, j + 1) == Turn(ds[j], TurnSweep(ds, j));
  }

  lemma AlignedBits(i: bv32)
    ensures var ds := DigitsOf(i, 16);
            && Small(AlignedPoint(i).0) && Small(AlignedPoint(i).1)
            && BitsOf(AlignedPoint(i).0, 16) == DecodeX(ds, ORIGIN)
                 && BitsOf(AlignedPoint(i).1, 16) == DecodeY(ds, ORIGIN)
  {
    hide Small, BitsOf, Deinterleave, Half, PrefixScan, WordNot, WordOr, WordAnd, WordXor, DigitsOf, DecodeX, DecodeY;
    hide TurnSweep, Xor, Or, And, Not, Zip;
    var i0, i1 := Deinterleave(i), Deinterleave(Half(i));
    DeinterleaveSmall(i);
    DeinterleaveSmall(Half(i));
    DeinterleaveDigits(i, 16);
    var p, q := PrefixScan(WordNot(WordOr(i0, i1))), PrefixScan(WordAnd(i0, i1));
    forall j | 0 <= j < 16 ensures Small(p) && Small(q)
        && Vec(BitsOf(p, 16)[j], BitsOf(q, 16)[j]) == TurnSweep(DigitsOf(i, 16), j + 1) {
      PrefixStates(i1, i0, j);
    }
    PrefixStates(i1, i0, 0);
    PointBits(BitsOf(i1, 16), BitsOf(i0, 16), BitsOf(p, 16), BitsOf(q, 16));
    PointWords(i1, i0, p, q);
  }

  lemma DeinterleaveSmall(i: bv32)
    ensures Small(Deinterleave(i))
  {
  }

  lemma PointWords(i1: bv32, i0: bv32, p: bv32, q: bv32)
    requires Small(i1) && Small(i0) && Small(p) && Small(q)
    ensures var a := WordOr(WordAnd(WordNot(i0), q), WordAnd(i0, p));
            var h, l := BitsOf(i1, 16), BitsOf(i0, 16);
            var bits := Or(And(Not(l), BitsOf(q, 16)), And(l, BitsOf(p, 16)));
            && Small(WordXor(a, i1)) && BitsOf(WordXor(a, i1), 16) == Xor(bits, h)
            && Small(WordXor(WordXor(a, i0), i1)) && BitsOf(WordXor(WordXor(a, i0), i1), 16) == Xor(Xor(bits, l), h)
  {
    hide Small, BitsOf, WordNot, WordOr, WordAnd, WordXor, Xor, Or, And, Not;
    SmallNot(i0);
    SmallAnd(WordNot(i0), q);
    SmallAnd(i0, p);
    SmallOr(WordAnd(WordNot(i0), q), WordAnd(i0, p));
    var a := WordOr(WordAnd(WordNot(i0), q), WordAnd(i0, p));
    SmallXor(a, i1);
    SmallXor(a, i0);
    SmallXor(WordXor(a, i0), i1);
  }

  // ---- Any order of curve.

  /** The digits of an index are the digits the automaton gives the point, highest bits first. */
  lemma IndexDigits(n: nat, x: bv32, y: bv32)
    requires 1 <= n <= 16 && Below(x, n) && Below(y, n)
    ensures Below(XyToIndex(n, x, y), 2 * n)
    ensures DigitsOf(XyToIndex(n, x, y), n) == Encode(BitsOf(x, n), BitsOf(y, n), ORIGIN)
  {
    hide Small, Below, BitsOf, DigitsOf, Encode, AlignedIndex, ShiftLeft, ShiftRight;
    var wideX, wideY := ShiftLeft(x, 16 - n), ShiftLeft(y, 16 - n);
    var index := AlignedIndex(wideX, wideY);
    BitsLeft(x, n, 16 - n);
    BitsLeft(y, n, 16 - n);
    SmallBelow(wideX);
    SmallBelow(wideY);
    AlignedDigits(wideX, wideY);
    DigitsKept(index, n, 16 - n);
    EncodePrefix(BitsOf(wideX, 16), BitsOf(wideY, 16), n, ORIGIN);
    assert BitsOf(wideX, 16)[..n] == BitsOf(x, n) && BitsOf(wideY, 16)[..n] == BitsOf(y, n);
    RightBelow(index, 32 - 2 * n, 2 * n);
  }

  lemma RightBelow(x: bv32, s: nat, w: nat)
    requires s + w == 32
    ensures Below(ShiftRight(x, s), w)
  {
    RightTwice(x, s, w);
    RightAll(x);
  }

  /** The point of an index has the bits the automaton gives its digits. */
  lemma PointDigits(n: nat, i: bv32)
    requires 1 <= n <= 16 && Below(i, 2 * n)
    ensures var (x, y) := IndexToXy(n, i);
            && Below(x, n) && Below(y, n)
            && BitsOf(x, n) == DecodeX(DigitsOf(i, n), ORIGIN) && BitsOf(y, n) == DecodeY(DigitsOf(i, n), ORIGIN)
  {
    hide Small, Below, BitsOf, DigitsOf, DecodeX, DecodeY, AlignedPoint, ShiftLeft, ShiftRight;
    var wide := ShiftLeft(i, 32 - 2 * n);
    var p := AlignedPoint(wide);
    DigitsLeft(i, n, 16 - n);
    AlignedBits(wide);
    DecodePrefix(DigitsOf(wide, 16), n, ORIGIN);
    BitsKept(p.0, n, 16 - n);
    BitsKept(p.1, n, 16 - n);
    SmallKept(p.0, n);
    SmallKept(p.1, n);
  }

  lemma SmallKept(x: bv32, n: nat)
    requires Small(x) && n <= 16
    ensures Below(ShiftRight(x, 16 - n), n)
  {
    hide Small, ShiftRight;
    SmallBelow(x);
    RightTwice(x, 16 - n, n);
  }

  /** Point to index and back. */
  lemma IndexOfPoint(n: nat, x: bv32, y: bv32)
    requires 1 <= n <= 16 && Below(x, n) && Below(y, n)
    ensures Below(XyToIndex(n, x, y), 2 * n) && IndexToXy(n, XyToIndex(n, x, y)) == (x, y)
  {
    hide Below, BitsOf, DigitsOf, Encode, DecodeX, DecodeY, XyToIndex, IndexToXy;
    IndexDigits(n, x, y);
    PointDigits(n, XyToIndex(n, x, y));
    DecodeEncode(BitsOf(x, n), BitsOf(y, n), ORIGIN);
    var (u, v) := IndexToXy(n, XyToIndex(n, x, y));
    SameBits(u, x, n);
    SameBits(v, y, n);
  }

  /** Index to point and back. */
  lemma PointOfIndex(n: nat, i: bv32)
    requires 1 <= n <= 16 && Below(i, 2 * n)
    ensures var (x, y) := IndexToXy(n, i);
            Below(x, n) && Below(y, n) && XyToIndex(n, x, y) == i
  {
    hide Below, BitsOf, DigitsOf, Encode, DecodeX, DecodeY, XyToIndex, IndexToXy;
    var (x, y) := IndexToXy(n, i);
    PointDigits(n, i);
    IndexDigits(n, x, y);
    EncodeDecode(DigitsOf(i, n), ORIGIN);
    SameDigits(XyToIndex(n, x, y), i, n);
  }

  // ---- Consecutive indices.

  lemma NextFromHalves(x: bv32, y: bv32)
    ensures !Low(x) && Low(y) && Half(x) == Half(y) ==> y == x + 1
    ensures Low(x) && !Low(y) && Half(y) == Half(x) + 1 ==> y == x + 1
  {
  }

  lemma {:induction false} SuccessorAdds(x: bv32, y: bv32, w: nat)
    requires Successor(BitsOf(x, w), BitsOf(y, w)) && Below(x, w) && Below(y, w)
    ensures y == x + 1
    decreases w
  {
    hide Low, Half;
    var t :| 0 <= t < w && TurnsAt(BitsOf(x, w), BitsOf(y, w), t);
    var c, d := BitsOf(Half(x), w - 1), BitsOf(Half(y), w - 1);
    NextFromHalves(x, y);
    if t == w - 1 {
      assert BitsOf(x, w)[..t] == c && BitsOf(y, w)[..t] == d;
      SameBits(Half(x), Half(y), w - 1);
    } else {
      assert c[..t] == BitsOf(x, w)[..t] && d[..t] == BitsOf(y, w)[..t];
      assert forall j :: 0 <= j < w - 1 ==> c[j] == BitsOf(x, w)[j] && d[j] == BitsOf(y, w)[j];
      assert TurnsAt(c, d, t);
      SuccessorAdds(Half(x), Half(y), w - 1);
      assert BitsOf(x, w)[w - 1] && !BitsOf(y, w)[w - 1];
    }
  }

  lemma NextInDigit(i: bv32)
    requires !(Low(Half(i)) && Low(i))
    ensures Half(Half(i + 1)) == Half(Half(i))
    ensures Follows((Low(Half(i)), Low(i)), (Low(Half(i + 1)), Low(i + 1)))
  {
    NextInLow(i);
  }

  lemma NextInLow(i: bv32)
    requires !(Low(Half(i)) && Low(i))
    ensures Low(i + 1) == !Low(i) && Low(Half(i + 1)) == (Low(Half(i)) != Low(i))
  {
  }

  lemma NextCarries(i: bv32)
    requires Low(Half(i)) && Low(i)
    ensures Half(Half(i + 1)) == Half(Half(i)) + 1 || i + 1 == 0
    ensures !Low(Half(i + 1)) && !Low(i + 1)
  {
  }

  lemma NoWrap(i: bv32)
    ensures Half(Half(i)) + 1 != 0
  {
  }

  /** Adding one to an index carries through its digits. */
  lemma {:induction false} DigitsCount(i: bv32, n: nat)
    requires i + 1 != 0 && Below(i, 2 * n) && Below(i + 1, 2 * n)
    ensures DigitSuccessor(DigitsOf(i, n), DigitsOf(i + 1, n))
    decreases n
  {
    hide Low, Half, Follows;
    var j := i + 1;
    if n > 0 {
      NoWrap(i);
      var d, e := DigitsOf(i, n), DigitsOf(j, n);
      var c, f := DigitsOf(Half(Half(i)), n - 1), DigitsOf(Half(Half(j)), n - 1);
      assert d[..n - 1] == c && e[..n - 1] == f;
      if Low(Half(i)) && Low(i) {
        assert ShiftRight(i, 2 * n) == ShiftRight(Half(i), 2 * n - 1) == ShiftRight(Half(Half(i)), 2 * (n - 1));
        assert ShiftRight(j, 2 * n) == ShiftRight(Half(j), 2 * n - 1) == ShiftRight(Half(Half(j)), 2 * (n - 1));
        NextCarries(i);
        DigitsCount(Half(Half(i)), n - 1);
        CarryDigit(c, f, d, e);
      } else {
        NextInDigit(i);
        assert DigitTurnsAt(d, e, n - 1);
      }
    }
  }

  lemma CarryDigit(c: Digits, f: Digits, d: Digits, e: Digits)
    requires |c| == |f| && DigitSuccessor(c, f) && d == c + [(true, true)] && e == f + [(false, false)]
    ensures DigitSuccessor(d, e)
  {
    var t :| 0 <= t < |c| && DigitTurnsAt(c, f, t);
    assert d[..t] == c[..t] && e[..t] == f[..t];
    assert DigitTurnsAt(d, e, t);
  }

  predicate OneApart(a: bv32, b: bv32) {
    b == a + 1 || a == b + 1
  }

  lemma WordsApart(x: bv32, u: bv32, n: nat)
    requires Below(x, n) && Below(u, n)
    ensures BitsOf(x, n) == BitsOf(u, n) ==> x == u
    ensures Successor(BitsOf(x, n), BitsOf(u, n)) || Successor(BitsOf(u, n), BitsOf(x, n)) ==> OneApart(x, u)
  {
    hide Below, BitsOf, Successor;
    if BitsOf(x, n) == BitsOf(u, n) {
      SameBits(x, u, n);
    }
    if Successor(BitsOf(x, n), BitsOf(u, n)) {
      SuccessorAdds(x, u, n);
    } else if Successor(BitsOf(u, n), BitsOf(x, n)) {
      SuccessorAdds(u, x, n);
    }
  }

  /** Consecutive indices are points at distance one: one coordinate stays, the other changes by one. */
  lemma UnitStep(n: nat, i: bv32)
    requires 1 <= n <= 16 && i + 1 != 0 && Below(i, 2 * n) && Below(i + 1, 2 * n)
    ensures var (x, y) := IndexToXy(n, i);
            var (u, v) := IndexToXy(n, i + 1);
            (x == u && OneApart(y, v)) || (y == v && OneApart(x, u))
  {
    hide Below, BitsOf, DigitsOf, DecodeX, DecodeY, IndexToXy, Successor, DigitTurnsAt, OneApart;
    var (x, y) := IndexToXy(n, i);
    var (u, v) := IndexToXy(n, i + 1);
    PointDigits(n, i);
    PointDigits(n, i + 1);
    DigitsCount(i, n);
    var t :| 0 <= t < n && DigitTurnsAt(DigitsOf(i, n), DigitsOf(i + 1, n), t);
    Neighbours(DigitsOf(i, n), DigitsOf(i + 1, n), t, ORIGIN);
    WordsApart(x, u, n);
    WordsApart(y, v, n);
  }

  /** Where the curve of 16 bits starts, and which way it turns first. */
  lemma StartOfCurve()
    ensures IndexToXy(16, 0) == (0, 0) && IndexToXy(16, 1) == (1, 0)
    ensures IndexToXy(16, 2) == (1, 1) && IndexToXy(16, 3) == (0, 1)
  {
  }
}
