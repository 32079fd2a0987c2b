// Cutting a sequence into consecutive groups of a fixed size, the last one possibly shorter.
// The groups are defined by cutting from the right and are shown to be those of an indexed view; with them the
// rounded-up division.
module Grouping {
  import opened Entries

  /** Number of groups: the source's rounded-up division. */
  function DivCeil(n: nat, size: nat): nat
    requires size > 0
  {
    (n + size - 1) / size
  }

  function Min(a: nat, b: nat): nat { if a <= b then a else b }

  /** The groups of `s`, cut off from the right. */
  function Chunks<T>(s: seq<T>, size: nat): (cs: seq<seq<T>>)
    requires size > 0
    ensures forall i :: 0 <= i < |cs| ==> 0 < |cs[i]| <= size
    decreases |s|
  {
    if s == [] then [] else
      var cut := LastCut(|s|, size);
      Chunks(s[..cut], size) + [s[cut..]]
  }

  function LastCut(n: nat, size: nat): (cut: nat)
    requires n > 0 && size > 0
    ensures cut < n <= cut + size && cut % size == 0
  {
    CutExact((n - 1) / size, size);
    (n - 1) / size * size
  }

  /** Group number `j` of `s`. */
  function Chunk<T>(s: seq<T>, size: nat, j: nat): (c: seq<T>)
    requires size > 0 && j < DivCeil(|s|, size)
    ensures 0 < |c| <= size
  {
    ChunkBounds(|s|, size, j);
    s[j * size..Min((j + 1) * size, |s|)]
  }

  lemma DivMod(n: nat, d: nat)
    requires d > 0
    ensures n == n / d * d + n % d && n % d < d
  {
  }

  lemma QuotientIs(n: nat, d: nat, q: nat)
    requires d > 0 && q * d <= n < q * d + d
    ensures n / d == q && n % d == n - q * d
  {
    DivMod(n, d);
    Monotone(n / d, q, d);
    Monotone(q, n / d, d);
  }

  lemma Monotone(a: nat, b: nat, d: nat)
    ensures a <= b ==> a * d <= b * d
    ensures a < b ==> a * d + d <= b * d
  {
    if a < b {
      Distribute(a + 1, b - a - 1, d);
      Distribute(a, 1, d);
    }
  }

  lemma Distribute(a: nat, b: nat, d: nat)
    ensures (a + b) * d == a * d + b * d && b * d >= 0
  {
  }

  lemma CutExact(q: nat, d: nat)
    requires d > 0
    ensures q * d % d == 0 && q * d / d == q
  {
    QuotientIs(q * d, d, q);
  }

  lemma DivCeilIs(n: nat, size: nat, m: nat)
    requires size > 0 && n <= m * size < n + size
    ensures DivCeil(n, size) == m
  {
    QuotientIs(n + size - 1, size, m);
  }

  lemma DivCeilBounds(n: nat, size: nat)
    requires size > 0
    ensures n <= DivCeil(n, size) * size < n + size
    ensures n > 0 ==> DivCeil(n, size) > 0
    ensures size >= 2 && n >= 2 ==> DivCeil(n, size) < n
    ensures DivCeil(n, size) <= n
    ensures DivCeil(n, size) <= 1 <==> n <= size
  {
    var m := DivCeil(n, size);
    DivMod(n + size - 1, size);
    Monotone(m, 1, size);
    Monotone(2, m, size);
    Monotone(n, m, size);
    assert n * size == n + n * (size - 1);
    Monotone(2, n, size - 1);
  }

  lemma ChunkBounds(n: nat, size: nat, j: nat)
    requires size > 0 && j < DivCeil(n, size)
    ensures j * size < n && (j + 1) * size == j * size + size
    ensures j + 1 < DivCeil(n, size) <==> (j + 1) * size < n
  {
    DivCeilBounds(n, size);
    Monotone(j, DivCeil(n, size), size);
    Monotone(j + 1, DivCeil(n, size), size);
  }

  /** The recursive cut and the indexed view are the same groups. */
  lemma {:induction false} ChunksAt<T>(s: seq<T>, size: nat)
    requires size > 0
    ensures |Chunks(s, size)| == DivCeil(|s|, size)
    ensures forall j :: 0 <= j < DivCeil(|s|, size) ==> Chunks(s, size)[j] == Chunk(s, size, j)
    decreases |s|
  {
    if s == [] {
      DivCeilIs(0, size, 0);
    } else {
      var cut := LastCut(|s|, size);
      var q := (|s| - 1) / size;
      ChunksAt(s[..cut], size);
      LastCutCount(|s|, size);
      forall j | 0 <= j < q + 1 ensures Chunks(s, size)[j] == Chunk(s, size, j) {
        if j < q {
          ChunkOfFront(s, size, j);
        } else {
          ChunkBounds(|s|, size, j);
          assert Chunk(s, size, j) == s[cut..];
        }
      }
    }
  }

  lemma LastCutCount(n: nat, size: nat)
    requires n > 0 && size > 0
    ensures DivCeil(n, size) == (n - 1) / size + 1 && DivCeil(LastCut(n, size), size) == (n - 1) / size
  {
    var q := (n - 1) / size;
    DivMod(n - 1, size);
    Monotone(q, q + 1, size);
    assert (q + 1) * size == q * size + size;
    DivCeilIs(n, size, q + 1);
    DivCeilIs(LastCut(n, size), size, q);
  }

  lemma ChunkOfFront<T>(s: seq<T>, size: nat, j: nat)
    requires |s| > 0 && size > 0 && j < (|s| - 1) / size
    ensures DivCeil(|s[..LastCut(|s|, size)]|, size) == (|s| - 1) / size
    ensures DivCeil(|s|, size) == (|s| - 1) / size + 1
    ensures Chunk(s[..LastCut(|s|, size)], size, j) == Chunk(s, size, j)
  {
    var cut := LastCut(|s|, size);
    LastCutCount(|s|, size);
    ChunkBounds(|s|, size, j);
    ChunkBounds(cut, size, j);
    Monotone(j + 1, (|s| - 1) / size, size);
    assert s[..cut][j * size..(j + 1) * size] == s[j * size..(j + 1) * size];
  }

  /** Adding a full group at the end, or a last shorter one, is what bulk loading does. */
  lemma ChunksPush<T>(s: seq<T>, last: seq<T>, size: nat)
    requires 0 < |last| <= size && |s| % size == 0
    ensures Chunks(s + last, size) == Chunks(s, size) + [last]
  {
    var n := |s| + |last|;
    DivMod(|s|, size);
    QuotientIs(n - 1, size, |s| / size);
    assert LastCut(n, size) == |s|;
    assert (s + last)[..|s|] == s && (s + last)[|s|..] == last;
  }

  lemma {:induction false} ChunksFlatten<T>(s: seq<T>, size: nat)
    requires size > 0
    ensures Flatten(Chunks(s, size)) == s
    decreases |s|
  {
    if s != [] {
      var cut := LastCut(|s|, size);
      ChunksFlatten(s[..cut], size);
      FlattenConcat(Chunks(s[..cut], size), [s[cut..]]);
      assert Flatten([s[cut..]]) == s[cut..] + Flatten<T>([]);
      assert s[..cut] + s[cut..] == s;
    }
  }
}
