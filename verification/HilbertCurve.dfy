// The Hilbert curve as a digit automaton: both directions undo each other, steps have length one.
module HilbertCurves {
  import opened Words
  import opened PrefixScans

  /** A base-4 digit of a curve index: high bit, low bit. */
  type Digit = (bool, bool)

  type Digits = seq<Digit>

  /** The digit of a bit pair in a state: it tells how the state changes, and whether the two bits differ. */
  function DigitAt(x: bool, y: bool, v: Vec): Digit {
    var after := Advance(x, y, v);
    var low := x != y;
    (after.q != v.q || !(low || after.p != v.p), low)
  }

  function Encode(x: Bits, y: Bits, v: Vec): (ds: Digits)
    requires |x| == |y|
    ensures |ds| == |x|
  {
    if x == [] then [] else [DigitAt(x[0], y[0], v)] + Encode(x[1..], y[1..], Advance(x[0], y[0], v))
  }

  function XOf(d: Digit, v: Vec): bool {
    (if d.1 then v.p else v.q) != d.0
  }

  function YOf(d: Digit, v: Vec): bool {
    XOf(d, v) != d.1
  }

  /** How a digit changes the state: digit 0 transposes, digit 3 transposes and mirrors. */
  function Turn(d: Digit, v: Vec): Vec {
    Vec(v.p != !(d.0 || d.1), v.q != (d.0 && d.1))
  }

  function DecodeX(ds: Digits, v: Vec): (x: Bits)
    ensures |x| == |ds|
  {
    if ds == [] then [] else [XOf(ds[0], v)] + DecodeX(ds[1..], Turn(ds[0], v))
  }

  function DecodeY(ds: Digits, v: Vec): (y: Bits)
    ensures |y| == |ds|
  {
    if ds == [] then [] else [YOf(ds[0], v)] + DecodeY(ds[1..], Turn(ds[0], v))
  }

  // ---- The two directions.

  lemma DigitInverse(x: bool, y: bool, v: Vec)
    ensures var d := DigitAt(x, y, v);
            XOf(d, v) == x && YOf(d, v) == y && Turn(d, v) == Advance(x, y, v)
  {
  }

  lemma PointInverse(d: Digit, v: Vec)
    ensures DigitAt(XOf(d, v), YOf(d, v), v) == d && Advance(XOf(d, v), YOf(d, v), v) == Turn(d, v)
  {
  }

  lemma {:induction false} DecodeEncode(x: Bits, y: Bits, v: Vec)
    requires |x| == |y|
    ensures DecodeX(Encode(x, y, v), v) == x && DecodeY(Encode(x, y, v), v) == y
  {
    hide XOf, YOf, Turn, DigitAt, Advance;
    if x != [] {
      DigitInverse(x[0], y[0], v);
      DecodeEncode(x[1..], y[1..], Advance(x[0], y[0], v));
      assert x == [x[0]] + x[1..] && y == [y[0]] + y[1..];
    }
  }

  lemma {:induction false} EncodeDecode(ds: Digits, v: Vec)
    ensures Encode(DecodeX(ds, v), DecodeY(ds, v), v) == ds
  {
    hide XOf, YOf, Turn, DigitAt, Advance;
    if ds != [] {
      PointInverse(ds[0], v);
      EncodeDecode(ds[1..], Turn(ds[0], v));
      assert ds == [ds[0]] + ds[1..];
    }
  }

  /** The digit at a position depends on the state the scan has there. */
  lemma {:induction false} EncodeAt(x: Bits, y: Bits, i: nat, j: nat)
    requires i <= j < |x| == |y|
    ensures Encode(x[i..], y[i..], Sweep(x, y, 0, i))[j - i] == DigitAt(x[j], y[j], Sweep(x, y, 0, j))
    decreases j - i
  {
    hide DigitAt, Advance;
    assert x[i..][1..] == x[i + 1..] && y[i..][1..] == y[i + 1..];
    assert Sweep(x, y, 0, i + 1) == Advance(x[i], y[i], Sweep(x, y, 0, i));
    if i < j {
      EncodeAt(x, y, i + 1, j);
    }
  }

  /** The state after the first `j` digits. */
  function TurnSweep(ds: Digits, j: nat): Vec
    requires j <= |ds|
  {
    if j == 0 then ORIGIN else Turn(ds[j - 1], TurnSweep(ds, j - 1))
  }

  lemma {:induction false} DecodeAt(ds: Digits, i: nat, j: nat)
    requires i <= j < |ds|
    ensures DecodeX(ds[i..], TurnSweep(ds, i))[j - i] == XOf(ds[j], TurnSweep(ds, j))
    ensures DecodeY(ds[i..], TurnSweep(ds, i))[j - i] == YOf(ds[j], TurnSweep(ds, j))
    decreases j - i
  {
    hide XOf, YOf, Turn;
    assert ds[i..][1..] == ds[i + 1..];
    assert TurnSweep(ds, i + 1) == Turn(ds[i], TurnSweep(ds, i));
    if i < j {
      DecodeAt(ds, i + 1, j);
    }
  }

  /** Dropping low digits drops low bits. */
  lemma {:induction false} DecodePrefix(ds: Digits, n: nat, v: Vec)
    requires n <= |ds|
    ensures DecodeX(ds[..n], v) == DecodeX(ds, v)[..n] && DecodeY(ds[..n], v) == DecodeY(ds, v)[..n]
  {
    hide XOf, YOf, Turn;
    if n > 0 {
      DecodePrefix(ds[1..], n - 1, Turn(ds[0], v));
      assert ds[..n][1..] == ds[1..][..n - 1];
    }
  }

  lemma {:induction false} EncodePrefix(x: Bits, y: Bits, n: nat, v: Vec)
    requires n <= |x| == |y|
    ensures Encode(x[..n], y[..n], v) == Encode(x, y, v)[..n]
  {
    hide DigitAt, Advance;
    if n > 0 {
      EncodePrefix(x[1..], y[1..], n - 1, Advance(x[0], y[0], v));
      assert x[..n][1..] == x[1..][..n - 1] && y[..n][1..] == y[1..][..n - 1];
    }
  }

  // ---- Steps of length one.

  /** `b` is the next number after `a`: a zero turns into a one, and the ones behind it into zeros. */
  ghost predicate Successor(a: Bits, b: Bits)
    requires |a| == |b|
  {
    exists t :: 0 <= t < |a| && TurnsAt(a, b, t)
  }

  ghost predicate TurnsAt(a: Bits, b: Bits, t: nat)
    requires t < |a| == |b|
  {
    && a[..t] == b[..t] && !a[t] && b[t]
    && forall j :: t < j < |a| ==> a[j] && !b[j]
  }

  ghost predicate Follows(d: Digit, e: Digit) {
    (d, e) in {((false, false), (false, true)), ((false, true), (true, false)), ((true, false), (true, true))}
  }

  /** The same for base-4 digits. */
  ghost predicate DigitSuccessor(d: Digits, e: Digits)
    requires |d| == |e|
  {
    exists t :: 0 <= t < |d| && DigitTurnsAt(d, e, t)
  }

  ghost predicate DigitTurnsAt(d: Digits, e: Digits, t: nat)
    requires t < |d| == |e|
  {
    && d[..t] == e[..t] && Follows(d[t], e[t])
    && forall j :: t < j < |d| ==> d[j] == (true, true) && e[j] == (false, false)
  }

  /** One coordinate is the same, the other changes by one. */
  ghost predicate Adjacent(x: Bits, y: Bits, u: Bits, v: Bits)
    requires |x| == |y| == |u| == |v|
  {
    || (x == u && (Successor(y, v) || Successor(v, y)))
    || (y == v && (Successor(x, u) || Successor(u, x)))
  }

  function Constant(b: bool, n: nat): (c: Bits)
    ensures |c| == n && forall j :: 0 <= j < n ==> c[j] == b
  {
    seq(n, _ => b)
  }

  /** Where the curve of a state ends. */
  lemma {:induction false} LastCorner(ds: Digits, v: Vec)
    requires forall j :: 0 <= j < |ds| ==> ds[j] == (true, true)
    ensures DecodeX(ds, v) == Constant(!v.p, |ds|) && DecodeY(ds, v) == Constant(v.p, |ds|)
  {
    if ds != [] {
      LastCorner(ds[1..], Turn(ds[0], v));
    }
  }

  /** Where the curve of a state begins. */
  lemma {:induction false} FirstCorner(ds: Digits, v: Vec)
    requires forall j :: 0 <= j < |ds| ==> ds[j] == (false, false)
    ensures DecodeX(ds, v) == Constant(v.q, |ds|) && DecodeY(ds, v) == Constant(v.q, |ds|)
  {
    if ds != [] {
      FirstCorner(ds[1..], Turn(ds[0], v));
    }
  }

  lemma CornerStep(b: bool, n: nat)
    ensures Successor([false] + Constant(true, n), [true] + Constant(false, n))
  {
    assert TurnsAt([false] + Constant(true, n), [true] + Constant(false, n), 0);
  }

  /** At the topmost digit that changes, the curve leaves one quadrant where it enters the next. */
  lemma QuadrantStep(d: Digits, e: Digits, v: Vec)
    requires |d| == |e| > 0 && DigitTurnsAt(d, e, 0)
    ensures Adjacent(DecodeX(d, v), DecodeY(d, v), DecodeX(e, v), DecodeY(e, v))
  {
    hide Successor, Constant;
    var n := |d| - 1;
    LastCorner(d[1..], Turn(d[0], v));
    FirstCorner(e[1..], Turn(e[0], v));
    CornerStep(true, n);
  }

  lemma SuccessorCons(h: bool, a: Bits, b: Bits)
    requires |a| == |b| && Successor(a, b)
    ensures Successor([h] + a, [h] + b)
  {
    var t :| 0 <= t < |a| && TurnsAt(a, b, t);
    var c, d := [h] + a, [h] + b;
    assert c[..t + 1] == [h] + a[..t] && d[..t + 1] == [h] + b[..t];
    assert TurnsAt(c, d, t + 1);
  }

  lemma AdjacentCons(g: bool, h: bool, x: Bits, y: Bits, u: Bits, v: Bits)
    requires |x| == |y| == |u| == |v| && Adjacent(x, y, u, v)
    ensures Adjacent([g] + x, [h] + y, [g] + u, [h] + v)
  {
    hide Successor;
    if Successor(y, v) { SuccessorCons(h, y, v); }
    if Successor(v, y) { SuccessorCons(h, v, y); }
    if Successor(x, u) { SuccessorCons(g, x, u); }
    if Successor(u, x) { SuccessorCons(g, u, x); }
  }

  /** Consecutive indices lie next to each other. */
  lemma {:induction false} Neighbours(d: Digits, e: Digits, t: nat, v: Vec)
    requires t < |d| == |e| && DigitTurnsAt(d, e, t)
    ensures Adjacent(DecodeX(d, v), DecodeY(d, v), DecodeX(e, v), DecodeY(e, v))
    decreases t
  {
    hide XOf, YOf, Turn, Adjacent;
    if t == 0 {
      QuadrantStep(d, e, v);
    } else {
      assert d[0] == d[..t][0] == e[..t][0] == e[0];
      assert d[1..][..t - 1] == d[..t][1..] && e[1..][..t - 1] == e[..t][1..];
      Neighbours(d[1..], e[1..], t - 1, Turn(d[0], v));
      AdjacentCons(XOf(d[0], v), YOf(d[0], v), DecodeX(d[1..], Turn(d[0], v)), DecodeY(d[1..], Turn(d[0], v)),
                   DecodeX(e[1..], Turn(d[0], v)), DecodeY(e[1..], Turn(d[0], v)));
    }
  }
}
