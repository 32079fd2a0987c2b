// Words as numbers: a coordinate or index turned into a word is still that number, so the transform is one on numbers.
module WordNumbers {
  import Words
  import Hilbert

  lemma WordOfNumber(x: bv32)
    ensures (x as nat) as bv32 == x
  {
  }

  lemma Doubled(x: bv32)
    requires x <= 0x7FFF_FFFF
    ensures (x << 1) as nat == 2 * (x as nat) && ((x << 1) | 1) as nat == 2 * (x as nat) + 1
  {
  }

  lemma DoubledSmall(x: bv32)
    requires x <= 0x7FFF
    ensures x << 1 <= 0xFFFF && (x << 1) | 1 <= 0xFFFF
  {
  }

  lemma HalfSmall(x: bv32)
    ensures x as nat < 0x8000_0000 ==> x <= 0x7FFF_FFFF
    ensures x as nat < 0x8000 ==> x <= 0x7FFF
  {
  }

  /** Every number below 2^32 is a word, and below 2^16 one of 16 bits. */
  lemma {:induction false} WordFor(v: nat) returns (w: bv32)
    requires v < 0x1_0000_0000
    ensures w as nat == v && (v < 0x10000 ==> w <= 0xFFFF)
  {
    if v == 0 {
      w := 0;
    } else {
      var half := WordFor(v / 2);
      HalfSmall(half);
      Doubled(half);
      if v < 0x10000 {
        DoubledSmall(half);
      }
      w := if v % 2 == 0 then half << 1 else (half << 1) | 1;
    }
  }

  lemma NumberOfWord(v: nat)
    requires v < 0x1_0000_0000
    ensures (v as bv32) as nat == v && (v < 0x10000 ==> v as bv32 <= 0xFFFF)
  {
    var w := WordFor(v);
    WordOfNumber(w);
  }

  lemma Widened(b: bv16)
    ensures (b as bv32) as nat == b as nat < 0x10000
  {
  }

  lemma SmallNumber(x: bv32)
    requires x <= 0xFFFF
    ensures x as nat < 0x10000
  {
    var b := x as bv16;
    assert b as bv32 == x;
    Widened(b);
  }

  // ---- The curve of 16 bits on numbers.

  /** The point at position `i` along the curve. */
  function PointAt(i: nat): (nat, nat)
    requires i < 0x1_0000_0000
  {
    var p := Hilbert.IndexToXy(16, i as bv32);
    (p.0 as nat, p.1 as nat)
  }

  function PositionOf(x: nat, y: nat): nat
    requires x < 0x1_0000_0000 && y < 0x1_0000_0000
  {
    Hilbert.XyToIndex(16, x as bv32, y as bv32) as nat
  }

  lemma PositionBound(x: nat, y: nat)
    requires x < 0x1_0000_0000 && y < 0x1_0000_0000
    ensures PositionOf(x, y) < 0x1_0000_0000
  {
    hide Hilbert.XyToIndex;
  }

  lemma PointOfPosition(x: nat, y: nat)
    requires x < 0x10000 && y < 0x10000
    ensures PositionOf(x, y) < 0x1_0000_0000 && PointAt(PositionOf(x, y)) == (x, y)
  {
    hide Hilbert.XyToIndex, Hilbert.IndexToXy, Words.Below;
    PositionBound(x, y);
    NumberOfWord(x);
    NumberOfWord(y);
    Words.SmallBelow(x as bv32);
    Words.SmallBelow(y as bv32);
    Hilbert.IndexOfPoint(16, x as bv32, y as bv32);
    WordOfNumber(Hilbert.XyToIndex(16, x as bv32, y as bv32));
  }

  lemma PositionOfPoint(i: nat)
    requires i < 0x1_0000_0000
    ensures PointAt(i).0 < 0x10000 && PointAt(i).1 < 0x10000
    ensures PositionOf(PointAt(i).0, PointAt(i).1) == i
  {
    hide Hilbert.XyToIndex, Hilbert.IndexToXy;
    var w := i as bv32;
    var (x, y) := Hilbert.IndexToXy(16, w);
    NumberOfWord(i);
    Words.RightAll(w);
    Hilbert.PointOfIndex(16, w);
    Words.SmallBelow(x);
    Words.SmallBelow(y);
    SmallNumber(x);
    SmallNumber(y);
    WordOfNumber(x);
    WordOfNumber(y);
  }
}
