// Keys in byte order, entries, and the vocabulary used to state what a list of entries holds.
module Entries {
  import opened Bytes

  datatype Option<+T> = None | Some(value: T)

  datatype Entry = Entry(key: Bytes, value: Bytes)

  /** Lexicographic order on code units, a proper prefix first: what a string comparison below zero means. */
  predicate Less(a: seq<int>, b: seq<int>) {
    b != [] && (a == [] || a[0] < b[0] || (a[0] == b[0] && Less(a[1..], b[1..])))
  }

  predicate AtMost(a: seq<int>, b: seq<int>) {
    !Less(b, a)
  }

  lemma {:induction false} LessTransitive(a: seq<int>, b: seq<int>, c: seq<int>)
    requires Less(a, b) && Less(b, c)
    ensures Less(a, c)
  {
    if a != [] && a[0] == b[0] == c[0] {
      LessTransitive(a[1..], b[1..], c[1..]);
    }
  }

  lemma {:induction false} LessIrreflexive(a: seq<int>)
    ensures !Less(a, a)
  {
    if a != [] {
      LessIrreflexive(a[1..]);
    }
  }

  /** The order is total on distinct keys, so "neither is less" means "the same key". */
  lemma {:induction false} LessTotal(a: seq<int>, b: seq<int>)
    ensures Less(a, b) || Less(b, a) || a == b
    ensures !(Less(a, b) && Less(b, a))
  {
    if a != [] && b != [] && a[0] == b[0] {
      LessTotal(a[1..], b[1..]);
      assert a == [a[0]] + a[1..] && b == [b[0]] + b[1..];
    }
  }

  /** Every way of chaining two comparisons. */
  lemma Chain(a: seq<int>, b: seq<int>, c: seq<int>)
    requires AtMost(a, b) && AtMost(b, c)
    ensures AtMost(a, c)
    ensures Less(a, b) || Less(b, c) ==> Less(a, c)
  {
    LessTotal(a, b);
    LessTotal(b, c);
    LessIrreflexive(a);
    LessTotal(a, c);
    if Less(a, b) && Less(b, c) {
      LessTransitive(a, b, c);
    }
  }

  lemma LessAtMost(a: seq<int>, b: seq<int>)
    requires Less(a, b)
    ensures AtMost(a, b)
  {
    LessTotal(a, b);
  }

  ghost predicate Sorted(es: seq<Entry>) {
    forall i, j :: 0 <= i < j < |es| ==> AtMost(es[i].key, es[j].key)
  }

  ghost predicate NonEmptyKeys(es: seq<Entry>) {
    forall i :: 0 <= i < |es| ==> es[i].key != []
  }

  function Values(es: seq<Entry>): (vs: seq<Bytes>)
    ensures |vs| == |es|
    ensures forall i :: 0 <= i < |es| ==> vs[i] == es[i].value
  {
    seq(|es|, i requires 0 <= i < |es| => es[i].value)
  }

  /** The entries of `es` with key `k`, in order. */
  function OfKey(es: seq<Entry>, k: Bytes): seq<Entry> {
    if es == [] then []
    else if es[0].key == k then [es[0]] + OfKey(es[1..], k)
    else OfKey(es[1..], k)
  }

  lemma {:induction false} OfKeyConcat(xs: seq<Entry>, ys: seq<Entry>, k: Bytes)
    ensures OfKey(xs + ys, k) == OfKey(xs, k) + OfKey(ys, k)
  {
    if xs == [] {
      assert xs + ys == ys;
    } else {
      assert (xs + ys)[1..] == xs[1..] + ys;
      OfKeyConcat(xs[1..], ys, k);
    }
  }

  lemma {:induction false} OfKeyMembers(es: seq<Entry>, k: Bytes)
    ensures forall e :: e in OfKey(es, k) <==> e in es && e.key == k
  {
    if es != [] {
      OfKeyMembers(es[1..], k);
      assert es == [es[0]] + es[1..];
    }
  }

  lemma {:induction false} OfKeyCount(es: seq<Entry>, e: Entry)
    ensures multiset(es)[e] == multiset(OfKey(es, e.key))[e]
  {
    if es != [] {
      OfKeyCount(es[1..], e);
      assert es == [es[0]] + es[1..];
    }
  }

  /** Agreeing key by key, in order, implies being a permutation. */
  lemma SameByKeySamePermutation(xs: seq<Entry>, ys: seq<Entry>)
    requires forall k :: OfKey(xs, k) == OfKey(ys, k)
    ensures multiset(xs) == multiset(ys)
  {
    forall e: Entry ensures multiset(xs)[e] == multiset(ys)[e] {
      OfKeyCount(xs, e);
      OfKeyCount(ys, e);
    }
  }

  lemma {:induction false} NoneOfKey(es: seq<Entry>, key: Bytes)
    requires forall i :: 0 <= i < |es| ==> es[i].key != key
    ensures OfKey(es, key) == []
  {
    if es != [] {
      NoneOfKey(es[1..], key);
    }
  }

  /** `i` is the position of the first entry whose key is not below `k`. */
  ghost predicate IsLowerBound(es: seq<Entry>, k: Bytes, i: nat) {
    && i <= |es|
    && (forall j :: 0 <= j < i ==> Less(es[j].key, k))
    && (forall j :: i <= j < |es| ==> AtMost(k, es[j].key))
  }

  /** `i` is the position of the first entry whose key is above `k`. */
  ghost predicate IsUpperBound(es: seq<Entry>, k: Bytes, i: nat) {
    && i <= |es|
    && (forall j :: 0 <= j < i ==> AtMost(es[j].key, k))
    && (forall j :: i <= j < |es| ==> Less(k, es[j].key))
  }

  function Flatten<T>(ss: seq<seq<T>>): seq<T> {
    if ss == [] then [] else ss[0] + Flatten(ss[1..])
  }

  lemma {:induction false} FlattenConcat<T>(xs: seq<seq<T>>, ys: seq<seq<T>>)
    ensures Flatten(xs + ys) == Flatten(xs) + Flatten(ys)
  {
    if xs == [] {
      assert xs + ys == ys;
    } else {
      assert (xs + ys)[1..] == xs[1..] + ys;
      FlattenConcat(xs[1..], ys);
    }
  }

  lemma {:induction false} FlattenMembers<T>(ss: seq<seq<T>>, x: T)
    ensures x in Flatten(ss) <==> exists i :: 0 <= i < |ss| && x in ss[i]
  {
    if ss != [] {
      FlattenMembers(ss[1..], x);
      assert forall i :: 0 <= i < |ss[1..]| ==> ss[1..][i] == ss[i + 1];
      if x in Flatten(ss[1..]) {
        var i :| 0 <= i < |ss[1..]| && x in ss[1..][i];
        assert x in ss[i + 1];
      }
      if i :| 0 <= i < |ss| && x in ss[i] {
        if i > 0 {
          assert x in ss[1..][i - 1];
        }
      }
    }
  }
}
