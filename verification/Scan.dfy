// The log-depth prefix scan of the Hilbert transform, on words of any width, against its sequential fold.
module PrefixScans {
  import opened Words

  /** The two state bits that are carried from a bit to the next lower one. */
  datatype Vec = Vec(p: bool, q: bool)

  const ORIGIN := Vec(false, false)

  function Plus(u: Vec, v: Vec): Vec {
    Vec(u.p != v.p, u.q != v.q)
  }

  /** The linear part of the affine map of a bit pair: the matrix [[1, b], [a, 1]] with a = x ^ y and b = ~a. */
  function Linear(x: bool, y: bool, v: Vec): Vec {
    var a, b := x != y, x == y;
    Vec(v.p != (b && v.q), (a && v.p) != v.q)
  }

  /** The affine map of a bit pair. */
  function Advance(x: bool, y: bool, v: Vec): Vec {
    Plus(Linear(x, y, v), Vec(!(x || y), x && !y))
  }

  /** The state after the bits from..to, starting in the origin, one bit at a time. */
  function Sweep(x: Bits, y: Bits, from: nat, to: nat): Vec
    requires from <= to <= |x| == |y|
  {
    if from == to then ORIGIN else Advance(x[to - 1], y[to - 1], Sweep(x, y, from, to - 1))
  }

  /** The linear parts of the bits from..to applied to a state. */
  function Carry(x: Bits, y: Bits, from: nat, to: nat, v: Vec): Vec
    requires from <= to <= |x| == |y|
  {
    if from == to then v else Linear(x[to - 1], y[to - 1], Carry(x, y, from, to - 1, v))
  }

  lemma LinearPlus(x: bool, y: bool, u: Vec, v: Vec)
    ensures Linear(x, y, Plus(u, v)) == Plus(Linear(x, y, u), Linear(x, y, v))
  {
  }

  /** A sweep is the sweep of its upper part carried through the lower part, plus the sweep of the lower part. */
  lemma {:induction false} SweepSplit(x: Bits, y: Bits, from: nat, mid: nat, to: nat)
    requires from <= mid <= to <= |x| == |y|
    ensures Sweep(x, y, from, to) == Plus(Carry(x, y, mid, to, Sweep(x, y, from, mid)), Sweep(x, y, mid, to))
  {
    if to != mid {
      SweepSplit(x, y, from, mid, to - 1);
      LinearPlus(x[to - 1], y[to - 1], Carry(x, y, mid, to - 1, Sweep(x, y, from, mid)), Sweep(x, y, mid, to - 1));
    }
  }

  lemma {:induction false} CarrySplit(x: Bits, y: Bits, from: nat, mid: nat, to: nat, v: Vec)
    requires from <= mid <= to <= |x| == |y|
    ensures Carry(x, y, from, to, v) == Carry(x, y, mid, to, Carry(x, y, from, mid, v))
  {
    if to != mid {
      CarrySplit(x, y, from, mid, to - 1, v);
    }
  }

  /** The matrix [[A, B], [B, A ^ B]]. */
  function Apply(a: bool, b: bool, v: Vec): Vec {
    Vec((a && v.p) != (b && v.q), (b && v.p) != ((a != b) && v.q))
  }

  ghost predicate Acts(x: Bits, y: Bits, from: nat, to: nat, a: bool, b: bool)
    requires from <= to <= |x| == |y|
  {
    forall v :: Carry(x, y, from, to, v) == Apply(a, b, v)
  }

  /** Matrices of this form are closed under multiplication. */
  lemma ActsJoin(x: Bits, y: Bits, from: nat, mid: nat, to: nat, a: bool, b: bool, c: bool, d: bool)
    requires from <= mid <= to <= |x| == |y|
    requires Acts(x, y, mid, to, a, b) && Acts(x, y, from, mid, c, d)
    ensures Acts(x, y, from, to, (a && c) != (b && d), (a && d) != (b && (c != d)))
  {
    forall v ensures Carry(x, y, from, to, v) == Apply((a && c) != (b && d), (a && d) != (b && (c != d)), v) {
      CarrySplit(x, y, from, mid, to, v);
    }
  }

  // ---- The rounds of the scan.

  datatype Quad = Quad(a: Bits, b: Bits, c: Bits, d: Bits)
  {
    predicate Width(w: nat) {
      |a| == |b| == |c| == |d| == w
    }
  }

  /** The first round: joins every bit pair with the one above it. */
  function FirstRound(x: Bits, y: Bits): (r: Quad)
    requires |x| == |y|
    ensures r.Width(|x|)
  {
    var a := Xor(x, y);
    var b := Not(a);
    var c := Not(Or(x, y));
    var d := And(x, Not(y));
    Quad(Or(a, Shift(b, 1)), Xor(Shift(a, 1), a),
         Xor(Xor(Shift(c, 1), And(b, Shift(d, 1))), c),
         Xor(Xor(And(a, Shift(c, 1)), Shift(d, 1)), d))
  }

  /** A row of a matrix word times a column shifted by `s`. */
  function Dot(a: Bits, b: Bits, c: Bits, d: Bits, s: nat): (r: Bits)
    requires |a| == |b| == |c| == |d|
    ensures |r| == |a|
    ensures forall j :: 0 <= j < |a| ==> r[j] == ((a[j] && j >= s && c[j - s]) != (b[j] && j >= s && d[j - s]))
  {
    Xor(And(a, Shift(c, s)), And(b, Shift(d, s)))
  }

  function Round(w: Quad, s: nat): (r: Quad)
    requires w.Width(|w.a|)
    ensures r.Width(|w.a|)
  {
    Quad(Dot(w.a, w.b, w.a, w.b, s), Dot(w.a, w.b, w.b, Xor(w.a, w.b), s),
         Xor(w.c, Dot(w.a, w.b, w.c, w.d, s)), Xor(w.d, Dot(w.b, Xor(w.a, w.b), w.c, w.d, s)))
  }

  /** Rounds with shifts s, 2s, 4s, ... until the shift spans the word. */
  function Rounds(w: Quad, s: nat): (r: (Bits, Bits))
    requires w.Width(|w.a|) && s > 0
    ensures |r.0| == |r.1| == |w.a|
    decreases |w.a| - s
  {
    if s >= |w.a| then (w.c, w.d) else Rounds(Round(w, s), 2 * s)
  }

  function Scan(x: Bits, y: Bits): (r: (Bits, Bits))
    requires |x| == |y|
    ensures |r.0| == |r.1| == |x|
  {
    Rounds(FirstRound(x, y), 2)
  }

  function Start(j: nat, s: nat): nat {
    if j + 1 >= s then j + 1 - s else 0
  }

  /** Position `j` holds the joint map of the `s` bit pairs ending there, or of all of them when there are fewer. */
  ghost predicate Spans(x: Bits, y: Bits, w: Quad, s: nat, j: nat)
    requires |x| == |y| && w.Width(|x|) && j < |x|
  {
    && (s > 0 ==> Vec(w.c[j], w.d[j]) == Sweep(x, y, Start(j, s), j + 1))
    && (0 < s <= j + 1 ==> Acts(x, y, j + 1 - s, j + 1, w.a[j], w.b[j]))
  }

  // The four results of the first round at a bit pair (x, y) with the pair (u, v) above it.
  function JoinedA(x: bool, y: bool, u: bool, v: bool): bool {
    x != y || u == v
  }

  function JoinedB(x: bool, y: bool, u: bool, v: bool): bool {
    (u != v) != (x != y)
  }

  function JoinedC(x: bool, y: bool, u: bool, v: bool): bool {
    (!(u || v) != (x == y && u && !v)) != !(x || y)
  }

  function JoinedD(x: bool, y: bool, u: bool, v: bool): bool {
    ((x != y && !(u || v)) != (u && !v)) != (x && !y)
  }

  lemma FirstValues(x: Bits, y: Bits, j: nat)
    requires |x| == |y| && j < |x|
    ensures var w := FirstRound(x, y);
            && (j == 0 ==> w.c[j] == !(x[j] || y[j]) && w.d[j] == (x[j] && !y[j]))
            && (j > 0 ==>
                  && w.a[j] == JoinedA(x[j], y[j], x[j - 1], y[j - 1])
                       && w.b[j] == JoinedB(x[j], y[j], x[j - 1], y[j - 1])
                  && w.c[j] == JoinedC(x[j], y[j], x[j - 1], y[j - 1])
                       && w.d[j] == JoinedD(x[j], y[j], x[j - 1], y[j - 1]))
  {
    hide FirstRound, JoinedA, JoinedB, JoinedC, JoinedD;
    if j > 0 {
      FirstMatrixAt(x, y, j);
    }
    FirstCAt(x, y, j);
    FirstDAt(x, y, j);
  }

  lemma FirstMatrixAt(x: Bits, y: Bits, j: nat)
    requires |x| == |y| && 0 < j < |x|
    ensures FirstRound(x, y).a[j] == JoinedA(x[j], y[j], x[j - 1], y[j - 1])
    ensures FirstRound(x, y).b[j] == JoinedB(x[j], y[j], x[j - 1], y[j - 1])
  {
    hide And, Or, Xor, Not, Shift;
  }

  lemma FirstCAt(x: Bits, y: Bits, j: nat)
    requires |x| == |y| && j < |x|
    ensures j == 0 ==> FirstRound(x, y).c[j] == !(x[j] || y[j])
    ensures j > 0 ==> FirstRound(x, y).c[j] == JoinedC(x[j], y[j], x[j - 1], y[j - 1])
  {
    hide And, Or, Xor, Not, Shift;
  }

  lemma FirstDAt(x: Bits, y: Bits, j: nat)
    requires |x| == |y| && j < |x|
    ensures j == 0 ==> FirstRound(x, y).d[j] == (x[j] && !y[j])
    ensures j > 0 ==> FirstRound(x, y).d[j] == JoinedD(x[j], y[j], x[j - 1], y[j - 1])
  {
    hide And, Or, Xor, Not, Shift;
  }

  lemma TwoSteps(x: bool, y: bool, u: bool, v: bool)
    ensures Advance(x, y, Advance(u, v, ORIGIN)) == Vec(JoinedC(x, y, u, v), JoinedD(x, y, u, v))
    ensures forall s :: Linear(x, y, Linear(u, v, s)) == Apply(JoinedA(x, y, u, v), JoinedB(x, y, u, v), s)
  {
  }

  lemma SweepOne(x: Bits, y: Bits, j: nat)
    requires j < |x| == |y|
    ensures Sweep(x, y, j, j + 1) == Advance(x[j], y[j], ORIGIN)
  {
    hide Advance;
    assert Sweep(x, y, j, j) == ORIGIN;
  }

  lemma SweepTwo(x: Bits, y: Bits, j: nat)
    requires 0 < j < |x| == |y|
    ensures Sweep(x, y, j - 1, j + 1) == Advance(x[j], y[j], Advance(x[j - 1], y[j - 1], ORIGIN))
  {
    hide Advance;
    SweepOne(x, y, j - 1);
  }

  lemma CarryTwo(x: Bits, y: Bits, j: nat, v: Vec)
    requires 0 < j < |x| == |y|
    ensures Carry(x, y, j - 1, j + 1, v) == Linear(x[j], y[j], Linear(x[j - 1], y[j - 1], v))
  {
    hide Linear;
    assert Carry(x, y, j - 1, j - 1, v) == v;
    assert Carry(x, y, j - 1, j, v) == Linear(x[j - 1], y[j - 1], v);
  }

  lemma FirstSpans(x: Bits, y: Bits, j: nat)
    requires |x| == |y| && j < |x|
    ensures Spans(x, y, FirstRound(x, y), 2, j)
  {
    hide FirstRound, JoinedA, JoinedB, JoinedC, JoinedD, Linear, Apply, Plus, Advance, Sweep, Carry;
    FirstValues(x, y, j);
    if j == 0 {
      SweepOne(x, y, j);
      OneStep(x[j], y[j]);
    } else {
      SweepTwo(x, y, j);
      TwoSteps(x[j], y[j], x[j - 1], y[j - 1]);
      var w := FirstRound(x, y);
      forall v ensures Carry(x, y, j - 1, j + 1, v) == Apply(w.a[j], w.b[j], v) {
        CarryTwo(x, y, j, v);
        assert Linear(x[j], y[j], Linear(x[j - 1], y[j - 1], v)) == Apply(w.a[j], w.b[j], v);
      }
      assert Start(j, 2) == j - 1;
    }
  }

  lemma OneStep(x: bool, y: bool)
    ensures Advance(x, y, ORIGIN) == Vec(!(x || y), x && !y)
  {
  }

  /** A round doubles the span. */
  lemma RoundSpans(x: Bits, y: Bits, w: Quad, s: nat, j: nat)
    requires |x| == |y| && w.Width(|x|) && s > 0 && j < |x|
    requires forall i :: 0 <= i < |x| ==> Spans(x, y, w, s, i)
    ensures Spans(x, y, Round(w, s), 2 * s, j)
  {
    hide Round, Sweep, Carry, Acts;
    assert Spans(x, y, w, s, j);
    RoundValues(w, s, j);
    if j >= s {
      var mid, from := j + 1 - s, Start(j, 2 * s);
      assert Spans(x, y, w, s, j - s);
      assert Start(j - s, s) == from && j - s + 1 == mid;
      SweepSplit(x, y, from, mid, j + 1);
      CarryIs(x, y, mid, j + 1, w.a[j], w.b[j], Vec(w.c[j - s], w.d[j - s]));
      if 2 * s <= j + 1 {
        ActsJoin(x, y, from, mid, j + 1, w.a[j], w.b[j], w.a[j - s], w.b[j - s]);
      }
    }
  }

  lemma CarryIs(x: Bits, y: Bits, from: nat, to: nat, a: bool, b: bool, v: Vec)
    requires from <= to <= |x| == |y| && Acts(x, y, from, to, a, b)
    ensures Carry(x, y, from, to, v) == Apply(a, b, v)
  {
  }

  lemma RoundValues(w: Quad, s: nat, j: nat)
    requires w.Width(|w.a|) && j < |w.a|
    ensures var r := Round(w, s);
            && (j < s ==> r.c[j] == w.c[j] && r.d[j] == w.d[j])
            && (j >= s ==>
                  && r.a[j] == ((w.a[j] && w.a[j - s]) != (w.b[j] && w.b[j - s]))
                  && r.b[j] == ((w.a[j] && w.b[j - s]) != (w.b[j] && (w.a[j - s] != w.b[j - s])))
                  && Vec(r.c[j], r.d[j]) ==
                       Plus(Apply(w.a[j], w.b[j], Vec(w.c[j - s], w.d[j - s])), Vec(w.c[j], w.d[j])))
  {
    hide And, Shift;
  }

  lemma {:induction false} RoundsSweep(x: Bits, y: Bits, w: Quad, s: nat)
    requires |x| == |y| && w.Width(|x|) && s > 0
    requires forall i :: 0 <= i < |x| ==> Spans(x, y, w, s, i)
    ensures forall j :: 0 <= j < |x| ==> Vec(Rounds(w, s).0[j], Rounds(w, s).1[j]) == Sweep(x, y, 0, j + 1)
    decreases |x| - s
  {
    if s >= |x| {
      forall j | 0 <= j < |x| ensures Vec(w.c[j], w.d[j]) == Sweep(x, y, 0, j + 1) {
        assert Spans(x, y, w, s, j);
      }
    } else {
      forall j | 0 <= j < |x| ensures Spans(x, y, Round(w, s), 2 * s, j) {
        RoundSpans(x, y, w, s, j);
      }
      RoundsSweep(x, y, Round(w, s), 2 * s);
    }
  }

  /** The parallel scan is the sequential fold, at every bit, for words of any width. */
  lemma ScanIsSweep(x: Bits, y: Bits)
    requires |x| == |y|
    ensures forall j :: 0 <= j < |x| ==> Vec(Scan(x, y).0[j], Scan(x, y).1[j]) == Sweep(x, y, 0, j + 1)
  {
    hide FirstRound, Rounds, Spans;
    forall j | 0 <= j < |x| ensures Spans(x, y, FirstRound(x, y), 2, j) {
      FirstSpans(x, y, j);
    }
    RoundsSweep(x, y, FirstRound(x, y), 2);
  }
}
