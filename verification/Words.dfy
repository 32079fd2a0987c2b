// 32-bit words seen as sequences of bits, highest bit first.
// The bitwise operations have names, so that a proof can hide what they do to the word and use only what they do to the
// bits.
module Words {

  type Bits = seq<bool>

  predicate Low(x: bv32) {
    x & 1 == 1
  }

  /** Half a word, rounded down; named, like the bitwise operations below, so that proofs can hide its definition. */
  function Half(x: bv32): bv32 {
    x >> 1
  }

  function WordAnd(x: bv32, y: bv32): bv32 {
    x & y
  }

  function WordOr(x: bv32, y: bv32): bv32 {
    x | y
  }

  function WordXor(x: bv32, y: bv32): bv32 {
    x ^ y
  }

  /** Complement of a 16-bit word. */
  function WordNot(x: bv32): bv32 {
    0xFFFF ^ x
  }

  function Twice(x: bv32): bv32 {
    x << 1
  }

  /** The lowest `w` bits of a word, highest first. */
  function BitsOf(x: bv32, w: nat): (b: Bits)
    ensures |b| == w
  {
    if w == 0 then [] else BitsOf(Half(x), w - 1) + [Low(x)]
  }

  /** Shift by a variable amount, as a repeated shift by one. */
  function ShiftLeft(x: bv32, s: nat): bv32 {
    if s == 0 then x else Twice(ShiftLeft(x, s - 1))
  }

  function ShiftRight(x: bv32, s: nat): bv32 {
    if s == 0 then x else ShiftRight(Half(x), s - 1)
  }

  /** `x` is below two to the power of `w`. */
  predicate Below(x: bv32, w: nat) {
    ShiftRight(x, w) == 0
  }

  // ---- Operations on bits.

  function And(a: Bits, b: Bits): (c: Bits)
    requires |a| == |b|
    ensures |c| == |a| && forall j :: 0 <= j < |a| ==> c[j] == (a[j] && b[j])
  {
    seq(|a|, j requires 0 <= j < |a| => a[j] && b[j])
  }

  function Or(a: Bits, b: Bits): (c: Bits)
    requires |a| == |b|
    ensures |c| == |a| && forall j :: 0 <= j < |a| ==> c[j] == (a[j] || b[j])
  {
    seq(|a|, j requires 0 <= j < |a| => a[j] || b[j])
  }

  function Xor(a: Bits, b: Bits): (c: Bits)
    requires |a| == |b|
    ensures |c| == |a| && forall j :: 0 <= j < |a| ==> c[j] == (a[j] != b[j])
  {
    seq(|a|, j requires 0 <= j < |a| => a[j] != b[j])
  }

  function Not(a: Bits): (c: Bits)
    ensures |c| == |a| && forall j :: 0 <= j < |a| ==> c[j] == !a[j]
  {
    seq(|a|, j requires 0 <= j < |a| => !a[j])
  }

  /** Shift towards the low end of the sequence; zeros move in at the high end. */
  function Shift(a: Bits, s: nat): (c: Bits)
    ensures |c| == |a| && forall j :: 0 <= j < |a| ==> c[j] == (j >= s && a[j - s])
  {
    seq(|a|, j requires 0 <= j < |a| => j >= s && a[j - s])
  }

  function Zeros(w: nat): (c: Bits)
    ensures |c| == w && forall j :: 0 <= j < w ==> !c[j]
  {
    seq(w, _ => false)
  }

  // ---- What each operation does to the bits.

  lemma HalfAnd(x: bv32, y: bv32)
    ensures Half(WordAnd(x, y)) == WordAnd(Half(x), Half(y)) && (Low(WordAnd(x, y)) <==> Low(x) && Low(y))
  {
  }

  lemma {:induction false} BitsWordAnd(x: bv32, y: bv32, w: nat)
    ensures BitsOf(WordAnd(x, y), w) == And(BitsOf(x, w), BitsOf(y, w))
    decreases w
  {
    hide Low, Half, WordAnd;
    if w > 0 {
      BitsWordAnd(Half(x), Half(y), w - 1);
      HalfAnd(x, y);
    }
  }

  lemma HalfOr(x: bv32, y: bv32)
    ensures Half(WordOr(x, y)) == WordOr(Half(x), Half(y)) && (Low(WordOr(x, y)) <==> Low(x) || Low(y))
  {
  }

  lemma {:induction false} BitsWordOr(x: bv32, y: bv32, w: nat)
    ensures BitsOf(WordOr(x, y), w) == Or(BitsOf(x, w), BitsOf(y, w))
    decreases w
  {
    hide Low, Half, WordOr;
    if w > 0 {
      BitsWordOr(Half(x), Half(y), w - 1);
      HalfOr(x, y);
    }
  }

  lemma HalfXor(x: bv32, y: bv32)
    ensures Half(WordXor(x, y)) == WordXor(Half(x), Half(y)) && (Low(WordXor(x, y)) <==> Low(x) != Low(y))
  {
  }

  lemma {:induction false} BitsWordXor(x: bv32, y: bv32, w: nat)
    ensures BitsOf(WordXor(x, y), w) == Xor(BitsOf(x, w), BitsOf(y, w))
    decreases w
  {
    hide Low, Half, WordXor;
    if w > 0 {
      BitsWordXor(Half(x), Half(y), w - 1);
      HalfXor(x, y);
    }
  }

  lemma OneMore(x: bv32, w: nat)
    ensures Low(x) ==> BitsOf(x, w + 1) == BitsOf(Half(x), w) + [true]
  {
  }

  lemma OnesAre()
    ensures forall j :: 0 <= j < 16 ==> BitsOf(0xFFFF, 16)[j]
  {
    hide BitsOf;
    assert |BitsOf(0, 0)| == 0;
    OneMore(0x1, 0);
    OneMore(0x3, 1);
    OneMore(0x7, 2);
    OneMore(0xF, 3);
    OneMore(0x1F, 4);
    OneMore(0x3F, 5);
    OneMore(0x7F, 6);
    OneMore(0xFF, 7);
    OneMore(0x1FF, 8);
    OneMore(0x3FF, 9);
    OneMore(0x7FF, 10);
    OneMore(0xFFF, 11);
    OneMore(0x1FFF, 12);
    OneMore(0x3FFF, 13);
    OneMore(0x7FFF, 14);
    OneMore(0xFFFF, 15);
  }

  lemma BitsNot(x: bv32)
    ensures BitsOf(WordNot(x), 16) == Not(BitsOf(x, 16))
  {
    hide BitsOf;
    OnesAre();
    BitsWordXor(0xFFFF, x, 16);
  }

  /** A word below two to the `w` has only zeros above. */
  lemma {:induction false} TopClear(x: bv32, w: nat)
    requires Below(x, w)
    ensures BitsOf(x, w + 1) == [false] + BitsOf(x, w)
    decreases w
  {
    hide Low, Half;
    if w == 0 {
      LowZero();
      assert BitsOf(x, 1) == BitsOf(Half(x), 0) + [Low(x)];
    } else {
      TopClear(Half(x), w - 1);
      assert BitsOf(x, w + 1) == BitsOf(Half(x), w) + [Low(x)];
    }
  }

  lemma LowZero()
    ensures !Low(0) && Half(0) == 0
  {
  }

  lemma {:induction false} HalfBelow(x: bv32, w: nat)
    requires Below(x, w)
    ensures Below(x, w + 1)
    decreases w
  {
    hide Half;
    LowZero();
    if w == 0 {
      assert ShiftRight(x, 1) == ShiftRight(Half(x), 0);
    } else {
      HalfBelow(Half(x), w - 1);
    }
  }

  lemma BitsHalf(x: bv32, w: nat)
    requires Below(x, w)
    ensures Below(Half(x), w) && BitsOf(Half(x), w) == Shift(BitsOf(x, w), 1)
  {
    hide Low, Half;
    LowZero();
    if w > 0 {
      TopClear(Half(x), w - 1);
      HalfBelow(Half(x), w - 1);
    }
  }

  lemma ShiftShift(a: Bits, s: nat)
    ensures Shift(Shift(a, s), 1) == Shift(a, s + 1)
  {
  }

  lemma {:induction false} RightSteps(x: bv32, s: nat)
    ensures ShiftRight(x, s + 1) == Half(ShiftRight(x, s))
    decreases s
  {
    hide Half;
    if s == 0 {
      assert ShiftRight(x, 1) == ShiftRight(Half(x), 0);
    } else {
      RightSteps(Half(x), s - 1);
    }
  }

  ghost predicate ShiftedBits(x: bv32, y: bv32, w: nat, s: nat) {
    Below(y, w) && BitsOf(y, w) == Shift(BitsOf(x, w), s)
  }

  lemma ShiftedNone(x: bv32, w: nat)
    requires Below(x, w)
    ensures ShiftedBits(x, ShiftRight(x, 0), w, 0)
  {
    ShiftNone(BitsOf(x, w));
  }

  lemma ShiftedMore(x: bv32, y: bv32, w: nat, s: nat)
    requires ShiftedBits(x, y, w, s)
    ensures ShiftedBits(x, Half(y), w, s + 1)
  {
    hide BitsOf, Below, Half, Shift;
    BitsHalf(y, w);
    ShiftShift(BitsOf(x, w), s);
  }

  /** A shift of the word is a shift of its bits. */
  lemma {:induction false} BitsRight(x: bv32, w: nat, s: nat)
    requires Below(x, w)
    ensures ShiftedBits(x, ShiftRight(x, s), w, s)
  {
    hide ShiftedBits, ShiftRight, Below;
    if s == 0 {
      ShiftedNone(x, w);
    } else {
      BitsRight(x, w, s - 1);
      RightSteps(x, s - 1);
      ShiftedMore(x, ShiftRight(x, s - 1), w, s - 1);
    }
  }

  lemma ShiftNone(a: Bits)
    ensures Shift(a, 0) == a
  {
  }

  lemma {:induction false} RightTwice(x: bv32, s: nat, t: nat)
    ensures ShiftRight(ShiftRight(x, s), t) == ShiftRight(x, s + t)
    decreases s
  {
    hide Half;
    if s > 0 {
      RightTwice(Half(x), s - 1, t);
    }
  }

  lemma RightOne(x: bv32)
    ensures ShiftRight(x, 1) == x >> 1
  {
    assert ShiftRight(x, 1) == ShiftRight(Half(x), 0);
  }

  lemma RightTwo(x: bv32)
    ensures ShiftRight(x, 2) == x >> 2
  {
    RightOne(x);
    RightOne(x >> 1);
    RightTwice(x, 1, 1);
  }

  lemma RightFour(x: bv32)
    ensures ShiftRight(x, 4) == x >> 4
  {
    RightTwo(x);
    RightTwo(x >> 2);
    RightTwice(x, 2, 2);
  }

  lemma RightEight(x: bv32)
    ensures ShiftRight(x, 8) == x >> 8
  {
    RightFour(x);
    RightFour(x >> 4);
    RightTwice(x, 4, 4);
  }

  lemma RightSixteen(x: bv32)
    ensures ShiftRight(x, 16) == x >> 16
  {
    RightEight(x);
    RightEight(x >> 8);
    RightTwice(x, 8, 8);
  }

  lemma RightAll(x: bv32)
    ensures ShiftRight(x, 32) == 0
  {
    RightSixteen(x);
    RightSixteen(x >> 16);
    RightTwice(x, 16, 16);
  }

  lemma {:induction false} BelowGrows(x: bv32, v: nat, w: nat)
    requires Below(x, v) && v <= w
    ensures Below(x, w)
    decreases w
  {
    hide Below;
    if v < w {
      BelowGrows(x, v, w - 1);
      HalfBelow(x, w - 1);
    }
  }

  predicate Small(x: bv32) {
    x <= 0xFFFF
  }

  lemma SmallBelow(x: bv32)
    ensures Below(x, 16) <==> Small(x)
  {
    RightSixteen(x);
    SmallShift(x);
  }

  lemma SmallShift(x: bv32)
    ensures x >> 16 == 0 <==> Small(x)
  {
  }

  // ---- The same for 16-bit words, which stay 16-bit words.

  lemma SmallAndKeeps(x: bv32, y: bv32)
    requires Small(x)
    ensures Small(WordAnd(x, y))
  {
  }

  lemma SmallAnd(x: bv32, y: bv32)
    requires Small(x)
    ensures Small(WordAnd(x, y)) && BitsOf(WordAnd(x, y), 16) == And(BitsOf(x, 16), BitsOf(y, 16))
  {
    hide Small, WordAnd, BitsOf;
    SmallAndKeeps(x, y);
    BitsWordAnd(x, y, 16);
  }

  lemma SmallOrKeeps(x: bv32, y: bv32)
    requires Small(x) && Small(y)
    ensures Small(WordOr(x, y))
  {
  }

  lemma SmallOr(x: bv32, y: bv32)
    requires Small(x) && Small(y)
    ensures Small(WordOr(x, y)) && BitsOf(WordOr(x, y), 16) == Or(BitsOf(x, 16), BitsOf(y, 16))
  {
    hide Small, WordOr, BitsOf;
    SmallOrKeeps(x, y);
    BitsWordOr(x, y, 16);
  }

  lemma SmallXorKeeps(x: bv32, y: bv32)
    requires Small(x) && Small(y)
    ensures Small(WordXor(x, y))
  {
  }

  lemma SmallXor(x: bv32, y: bv32)
    requires Small(x) && Small(y)
    ensures Small(WordXor(x, y)) && BitsOf(WordXor(x, y), 16) == Xor(BitsOf(x, 16), BitsOf(y, 16))
  {
    hide Small, WordXor, BitsOf;
    SmallXorKeeps(x, y);
    BitsWordXor(x, y, 16);
  }

  lemma SmallNot(x: bv32)
    requires Small(x)
    ensures Small(WordNot(x)) && BitsOf(WordNot(x), 16) == Not(BitsOf(x, 16))
  {
    BitsNot(x);
  }

  lemma SmallRight(x: bv32, s: nat)
    requires Small(x)
    ensures Small(ShiftRight(x, s)) && BitsOf(ShiftRight(x, s), 16) == Shift(BitsOf(x, 16), s)
  {
    hide Below, Small, BitsOf;
    SmallBelow(x);
    BitsRight(x, 16, s);
    SmallBelow(ShiftRight(x, s));
  }

  lemma TopBit(x: bv32)
    requires Below(x, 31)
    ensures x <= 0x7FFFFFFF
  {
    RightTwice(x, 30, 1);
    RightTwice(x, 16, 14);
    RightTwice(x >> 16, 8, 6);
    RightTwice(x >> 24, 4, 2);
    RightSixteen(x);
    RightEight(x >> 16);
    RightFour(x >> 24);
    RightTwo(x >> 28);
    RightOne(x >> 30);
  }

  // ---- Shifts to the left.

  lemma HalfTwice(x: bv32)
    requires x <= 0x7FFFFFFF
    ensures Half(Twice(x)) == x && !Low(Twice(x))
  {
  }

  lemma BitsTwice(x: bv32, w: nat)
    requires Below(x, w) && w <= 31
    ensures BitsOf(Twice(x), w + 1) == BitsOf(x, w) + [false] && Below(Twice(x), w + 1)
  {
    hide Half, Twice, Low;
    BelowGrows(x, w, 31);
    TopBit(x);
    HalfTwice(x);
  }

  /** A shift to the left that loses no bit appends zeros. */
  lemma {:induction false} BitsLeft(x: bv32, w: nat, s: nat)
    requires Below(x, w) && w + s <= 32
    ensures BitsOf(ShiftLeft(x, s), w + s) == BitsOf(x, w) + Zeros(s) && Below(ShiftLeft(x, s), w + s)
    decreases s
  {
    hide Below, Twice, BitsOf;
    if s == 0 {
      assert BitsOf(x, w) + Zeros(0) == BitsOf(x, w);
    } else {
      BitsLeft(x, w, s - 1);
      BitsTwice(ShiftLeft(x, s - 1), w + s - 1);
      assert Zeros(s) == Zeros(s - 1) + [false];
    }
  }

  /** A shift to the right keeps the high bits. */
  lemma {:induction false} BitsKept(x: bv32, w: nat, s: nat)
    ensures BitsOf(ShiftRight(x, s), w) == BitsOf(x, w + s)[..w]
    decreases s
  {
    hide Half, Low;
    if s > 0 {
      BitsKept(Half(x), w, s - 1);
      assert BitsOf(x, w + s) == BitsOf(Half(x), w + s - 1) + [Low(x)];
    }
  }

  // ---- Words from their bits.

  lemma FromHalves(x: bv32, y: bv32)
    requires Half(x) == Half(y) && (Low(x) <==> Low(y))
    ensures x == y
  {
  }

  /** A word below two to the `w` is determined by its lowest `w` bits. */
  lemma {:induction false} SameBits(x: bv32, y: bv32, w: nat)
    requires Below(x, w) && Below(y, w) && BitsOf(x, w) == BitsOf(y, w)
    ensures x == y
    decreases w
  {
    hide Half, Low;
    if w > 0 {
      SameFront(BitsOf(Half(x), w - 1), Low(x), BitsOf(Half(y), w - 1), Low(y));
      SameBits(Half(x), Half(y), w - 1);
      FromHalves(x, y);
    }
  }

  lemma SameFront<T>(a: seq<T>, s: T, b: seq<T>, t: T)
    requires a + [s] == b + [t] && |a| == |b|
    ensures a == b && s == t
  {
    assert (a + [s])[..|a|] == a && (b + [t])[..|b|] == b;
    assert (a + [s])[|a|] == s;
  }
}
