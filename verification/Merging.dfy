// K-way merging: the selection rule of the iterator, the one of the writer, and what
// each of them produces.
module Merging {
  import opened Bytes
  import opened Entries

  type Runs = seq<seq<Entry>>

  /** Index selected among the first `n` runs by the database iterator. */
  function MinIndex(runs: Runs, n: nat): (m: nat)
    requires n <= |runs|
    ensures n > 0 ==> m < n
  {
    if n <= 1 then 0 else
      var next := MinIndex(runs, n - 1);
      if runs[n - 1] == [] then next
      else if runs[next] == [] || Less(runs[n - 1][0].key, runs[next][0].key) then n - 1
      else next
  }

  /** Key and index selected among the first `n` runs by the writer; an empty key also means "nothing selected yet". */
  function WriterScan(runs: Runs, n: nat): (r: (Bytes, nat))
    requires n <= |runs|
    ensures n > 0 ==> r.1 < n
  {
    if n == 0 then ([], 0) else
      var prev := WriterScan(runs, n - 1);
      if runs[n - 1] == [] then prev
      else if prev.0 == [] || Less(runs[n - 1][0].key, prev.0) then (runs[n - 1][0].key, n - 1)
      else prev
  }

  ghost predicate Live(runs: Runs) {
    exists i :: 0 <= i < |runs| && runs[i] != []
  }

  function Drop(runs: Runs, m: nat): Runs
    requires m < |runs| && runs[m] != []
  {
    runs[m := runs[m][1..]]
  }

  lemma FlattenAt(runs: Runs, m: nat)
    requires m < |runs|
    ensures Flatten(runs) == Flatten(runs[..m]) + (runs[m] + Flatten(runs[m + 1..]))
  {
    assert runs == runs[..m] + runs[m..] && runs[m..] == [runs[m]] + runs[m + 1..];
    FlattenConcat(runs[..m], runs[m..]);
  }

  /** Dropping a head removes exactly that entry. */
  lemma {:induction false} DropFlatten(runs: Runs, m: nat)
    requires m < |runs| && runs[m] != []
    ensures |Flatten(Drop(runs, m))| == |Flatten(runs)| - 1
    ensures multiset(Flatten(runs)) == multiset{runs[m][0]} + multiset(Flatten(Drop(runs, m)))
    ensures Flatten(runs) == Flatten(runs[..m]) + [runs[m][0]] + (runs[m][1..] + Flatten(runs[m + 1..]))
    ensures Flatten(Drop(runs, m)) == Flatten(runs[..m]) + (runs[m][1..] + Flatten(runs[m + 1..]))
  {
    var dropped := Drop(runs, m);
    FlattenAt(runs, m);
    FlattenAt(dropped, m);
    assert dropped[..m] == runs[..m] && dropped[m + 1..] == runs[m + 1..];
    assert runs[m] == [runs[m][0]] + runs[m][1..];
    var pre, post := Flatten(runs[..m]), runs[m][1..] + Flatten(runs[m + 1..]);
    assert Flatten(runs) == pre + [runs[m][0]] + post;
    assert Flatten(dropped) == pre + post;
  }

  lemma LiveFlatten(runs: Runs)
    ensures Live(runs) <==> Flatten(runs) != []
  {
    if Live(runs) {
      var i :| 0 <= i < |runs| && runs[i] != [];
      FlattenAt(runs, i);
    }
    if Flatten(runs) != [] {
      FlattenMembers(runs, Flatten(runs)[0]);
    }
  }

  /** The iterator selects a live run with the smallest head, the first such run. */
  lemma {:induction false} MinIndexFirst(runs: Runs, n: nat)
    requires n <= |runs|
    ensures var m := MinIndex(runs, n);
            (exists i :: 0 <= i < n && runs[i] != []) ==>
              && runs[m] != []
              && (forall j :: 0 <= j < n && runs[j] != [] ==> AtMost(runs[m][0].key, runs[j][0].key))
              && (forall j :: 0 <= j < m && runs[j] != [] ==> Less(runs[m][0].key, runs[j][0].key))
  {
    if n > 1 && exists i :: 0 <= i < n && runs[i] != [] {
      MinIndexFirst(runs, n - 1);
      var p, m := MinIndex(runs, n - 1), MinIndex(runs, n);
      if m == n - 1 {
        LessIrreflexive(runs[m][0].key);
        forall j | 0 <= j < n - 1 && runs[j] != [] ensures Less(runs[m][0].key, runs[j][0].key) {
          LessAtMost(runs[m][0].key, runs[p][0].key);
          Chain(runs[m][0].key, runs[p][0].key, runs[j][0].key);
        }
        forall j | 0 <= j < n && runs[j] != [] ensures AtMost(runs[m][0].key, runs[j][0].key) {
          if j < n - 1 { LessAtMost(runs[m][0].key, runs[j][0].key); }
        }
      }
    } else if n == 1 && runs[0] != [] {
      LessIrreflexive(runs[0][0].key);
    }
  }

  /** The writer selects a live run. */
  lemma {:induction false} WriterScanLive(runs: Runs, n: nat)
    requires n <= |runs|
    ensures var (k, m) := WriterScan(runs, n);
            if exists i :: 0 <= i < n && runs[i] != [] then m < n && runs[m] != [] && k == runs[m][0].key
                else k == [] && m == 0
  {
    if n > 0 {
      WriterScanLive(runs, n - 1);
    }
  }

  /** Until only the last live run may have an empty head, both rules select the same run. */
  lemma {:induction false} ScansAgree(runs: Runs, n: nat)
    requires n <= |runs|
    requires forall i, j :: 0 <= i < j < n && runs[i] != [] && runs[j] != [] ==> runs[i][0].key != []
    requires exists i :: 0 <= i < n && runs[i] != []
    ensures WriterScan(runs, n).1 == MinIndex(runs, n)
  {
    WriterScanLive(runs, n - 1);
    MinIndexFirst(runs, n - 1);
    if exists i :: 0 <= i < n - 1 && runs[i] != [] {
      ScansAgree(runs, n - 1);
    } else if n > 1 {
      assert runs[MinIndex(runs, n - 1)] == [];
    }
  }

  // ---- The two merges.

  function MergeIterated(runs: Runs): seq<Entry>
    decreases |Flatten(runs)|
  {
    LiveFlatten(runs);
    if Flatten(runs) == [] then [] else
      var m := MinIndex(runs, |runs|);
      MinIndexFirst(runs, |runs|);
      DropFlatten(runs, m);
      [runs[m][0]] + MergeIterated(Drop(runs, m))
  }

  function MergeWritten(runs: Runs): seq<Entry>
    decreases |Flatten(runs)|
  {
    LiveFlatten(runs);
    if Flatten(runs) == [] then [] else
      var m := WriterScan(runs, |runs|).1;
      WriterScanLive(runs, |runs|);
      DropFlatten(runs, m);
      [runs[m][0]] + MergeWritten(Drop(runs, m))
  }

  ghost predicate AllSorted(runs: Runs) {
    forall i :: 0 <= i < |runs| ==> Sorted(runs[i])
  }

  lemma DropSorted(runs: Runs, m: nat)
    requires AllSorted(runs) && m < |runs| && runs[m] != []
    ensures AllSorted(Drop(runs, m))
  {
    forall i | 0 <= i < |runs| ensures Sorted(Drop(runs, m)[i]) {
      assert Sorted(runs[i]);
    }
  }

  /** The writer's merge loses nothing and invents nothing, whatever the keys. */
  lemma {:induction false} WrittenPermutation(runs: Runs)
    ensures multiset(MergeWritten(runs)) == multiset(Flatten(runs))
    decreases |Flatten(runs)|
  {
    LiveFlatten(runs);
    if Flatten(runs) != [] {
      var m := WriterScan(runs, |runs|).1;
      WriterScanLive(runs, |runs|);
      DropFlatten(runs, m);
      WrittenPermutation(Drop(runs, m));
    }
  }

  /** In a sorted run everything is at least the head. */
  lemma HeadLeast(runs: Runs, m: nat, x: Entry)
    requires AllSorted(runs) && m < |runs| && runs[m] != [] && x in Flatten(runs)
    requires forall j :: 0 <= j < |runs| && runs[j] != [] ==> AtMost(runs[m][0].key, runs[j][0].key)
    ensures AtMost(runs[m][0].key, x.key)
  {
    FlattenMembers(runs, x);
    var j :| 0 <= j < |runs| && x in runs[j];
    var i :| 0 <= i < |runs[j]| && runs[j][i] == x;
    assert Sorted(runs[j]);
    if i > 0 { Chain(runs[m][0].key, runs[j][0].key, x.key); }
  }

  lemma SortedCons(e: Entry, rest: seq<Entry>)
    ensures Sorted([e] + rest) <==> Sorted(rest) && forall i :: 0 <= i < |rest| ==> AtMost(e.key, rest[i].key)
  {
    var all := [e] + rest;
    if Sorted(all) {
      forall i, j | 0 <= i < j < |rest| ensures AtMost(rest[i].key, rest[j].key) {
        assert all[i + 1] == rest[i] && all[j + 1] == rest[j];
      }
      forall i | 0 <= i < |rest| ensures AtMost(e.key, rest[i].key) {
        assert all[0] == e && all[i + 1] == rest[i];
      }
    }
  }

  /** Merging keeps, for every key, the entries of that key in source order and then in order within the source. */
  lemma {:induction false} IteratedStable(runs: Runs, k: Bytes)
    requires AllSorted(runs)
    ensures OfKey(MergeIterated(runs), k) == OfKey(Flatten(runs), k)
    decreases |Flatten(runs)|
  {
    hide Less;
    LiveFlatten(runs);
    if Flatten(runs) != [] {
      var m := MinIndex(runs, |runs|);
      MinIndexFirst(runs, |runs|);
      DropFlatten(runs, m);
      DropSorted(runs, m);
      IteratedStable(Drop(runs, m), k);
      EarlierRunsLack(runs, m, runs[m][0].key);
      StableStep(Flatten(runs[..m]), runs[m][0], runs[m][1..] + Flatten(runs[m + 1..]), MergeIterated(Drop(runs, m)),
          k);
    }
  }

  lemma StableStep(pre: seq<Entry>, e: Entry, post: seq<Entry>, rest: seq<Entry>, k: Bytes)
    requires OfKey(rest, k) == OfKey(pre + post, k) && OfKey(pre, e.key) == []
    ensures OfKey([e] + rest, k) == OfKey(pre + [e] + post, k)
  {
    OfKeyConcat([e], rest, k);
    OfKeyConcat(pre + [e], post, k);
    OfKeyConcat(pre, [e], k);
    OfKeyConcat(pre, post, k);
    assert OfKey([e], k) == if e.key == k then [e] else [];
  }

  /** No run before the selected one has an entry with the selected key. */
  lemma {:induction false} EarlierRunsLack(runs: Runs, m: nat, k: Bytes)
    requires AllSorted(runs) && m < |runs|
    requires forall j :: 0 <= j < m && runs[j] != [] ==> Less(k, runs[j][0].key)
    ensures OfKey(Flatten(runs[..m]), k) == []
  {
    if m > 0 {
      EarlierRunsLack(runs, m - 1, k);
      assert runs[..m] == runs[..m - 1] + [runs[m - 1]];
      FlattenConcat(runs[..m - 1], [runs[m - 1]]);
      assert Flatten([runs[m - 1]]) == runs[m - 1] + Flatten<Entry>([]) == runs[m - 1];
      OfKeyConcat(Flatten(runs[..m - 1]), runs[m - 1], k);
      AboveAll(runs[m - 1], k);
    }
  }

  lemma AboveAll(run: seq<Entry>, k: Bytes)
    requires Sorted(run) && (run == [] || Less(k, run[0].key))
    ensures OfKey(run, k) == []
  {
    LessIrreflexive(k);
    forall i | 0 <= i < |run| ensures run[i].key != k {
      LessAtMost(k, run[0].key);
      if i > 0 { Chain(k, run[0].key, run[i].key); }
    }
    NoneOfKey(run, k);
  }

  /** The iterator's merge of sorted runs is sorted and keeps every entry; empty keys included. */
  lemma {:induction false} IteratedSorted(runs: Runs)
    requires AllSorted(runs)
    ensures Sorted(MergeIterated(runs)) && multiset(MergeIterated(runs)) == multiset(Flatten(runs))
    decreases |Flatten(runs)|
  {
    hide Less;
    LiveFlatten(runs);
    if Flatten(runs) != [] {
      var m := MinIndex(runs, |runs|);
      MinIndexFirst(runs, |runs|);
      DropFlatten(runs, m);
      DropSorted(runs, m);
      IteratedSorted(Drop(runs, m));
      ConsLeast(runs, m, MergeIterated(Drop(runs, m)));
    }
  }

  /** Putting a smallest head in front of a sorted arrangement of the rest. */
  lemma ConsLeast(runs: Runs, m: nat, rest: seq<Entry>)
    requires AllSorted(runs) && m < |runs| && runs[m] != [] && Sorted(rest)
    requires multiset(rest) == multiset(Flatten(Drop(runs, m)))
    requires forall j :: 0 <= j < |runs| && runs[j] != [] ==> AtMost(runs[m][0].key, runs[j][0].key)
    ensures Sorted([runs[m][0]] + rest)
  {
    hide Less, Drop, Flatten;
    DropFlatten(runs, m);
    forall i | 0 <= i < |rest| ensures AtMost(runs[m][0].key, rest[i].key) {
      assert rest[i] in multiset(rest);
      assert rest[i] in multiset(Flatten(runs));
      HeadLeast(runs, m, rest[i]);
    }
    SortedCons(runs[m][0], rest);
  }

  ghost predicate AllNonEmptyKeys(runs: Runs) {
    forall i :: 0 <= i < |runs| ==> NonEmptyKeys(runs[i])
  }

  /** No run with an empty key is followed by a run that has any entry at all. */
  ghost predicate EmptyKeysOnlyLast(runs: Runs) {
    forall i, j, p :: 0 <= i < j < |runs| && 0 <= p < |runs[i]| && runs[i][p].key == [] ==> runs[j] == []
  }

  lemma NonEmptyKeysOnlyLast(runs: Runs)
    requires AllNonEmptyKeys(runs)
    ensures EmptyKeysOnlyLast(runs)
  {
    forall i, p | 0 <= i < |runs| && 0 <= p < |runs[i]| ensures runs[i][p].key != [] {
      assert NonEmptyKeys(runs[i]);
    }
  }

  /** Agreement needs no order inside the runs: only the last live run may have an empty key. */
  lemma {:induction false} MergesAgree(runs: Runs)
    requires EmptyKeysOnlyLast(runs)
    ensures MergeWritten(runs) == MergeIterated(runs)
    decreases |Flatten(runs)|
  {
    LiveFlatten(runs);
    if Flatten(runs) != [] {
      ScansAgree(runs, |runs|);
      var m := MinIndex(runs, |runs|);
      MinIndexFirst(runs, |runs|);
      DropFlatten(runs, m);
      forall i, j, p | 0 <= i < j < |runs| && 0 <= p < |Drop(runs, m)[i]| && Drop(runs, m)[i][p].key == []
        ensures Drop(runs, m)[j] == []
      {
        assert runs[i][if i == m then p + 1 else p].key == [];
      }
      MergesAgree(Drop(runs, m));
    }
  }

  ghost predicate DistinctHeads(runs: Runs) {
    forall i, j :: 0 <= i < j < |runs| && runs[i] != [] && runs[j] != [] ==> runs[i][0] != runs[j][0]
  }

  /** A run with an empty key is followed only by runs all of whose keys are empty. */
  ghost predicate EmptyKeysAfterwards(runs: Runs) {
    forall i, j, p, q :: 0 <= i < j < |runs| && 0 <= p < |runs[i]| && 0 <= q < |runs[j]| && runs[i][p].key == [] ==>
        runs[j][q].key == []
  }

  /** Under that condition the writer selects a smallest head. */
  lemma {:induction false} WriterScanLeast(runs: Runs, n: nat)
    requires n <= |runs| && EmptyKeysAfterwards(runs)
    ensures forall j :: 0 <= j < n && runs[j] != [] ==> AtMost(WriterScan(runs, n).0, runs[j][0].key)
  {
    if n > 0 {
      WriterScanLeast(runs, n - 1);
      WriterScanLive(runs, n - 1);
      var (k, m) := WriterScan(runs, n - 1);
      if runs[n - 1] != [] {
        var key := runs[n - 1][0].key;
        LessIrreflexive(key);
        forall j | 0 <= j < n - 1 && runs[j] != [] ensures AtMost(WriterScan(runs, n).0, runs[j][0].key) {
          if k == [] {
            assert runs[m][0].key == [] && key == [];
          } else if Less(key, k) {
            LessAtMost(key, k);
            Chain(key, k, runs[j][0].key);
          }
        }
      }
    }
  }

  lemma DropKeepsEmptyLast(runs: Runs, m: nat)
    requires EmptyKeysAfterwards(runs) && m < |runs| && runs[m] != []
    ensures EmptyKeysAfterwards(Drop(runs, m))
  {
    var dropped: Runs := Drop(runs, m);
    forall i, j, p, q | 0 <= i < j < |dropped| && 0 <= p < |dropped[i]| && 0 <= q < |dropped[j]|
        && dropped[i][p].key == []
      ensures dropped[j][q].key == []
    {
      assert runs[i][if i == m then p + 1 else p].key == [];
      assert runs[j][if j == m then q + 1 else q].key == [];
    }
  }

  lemma {:induction false} WrittenSorted(runs: Runs)
    requires AllSorted(runs) && EmptyKeysAfterwards(runs)
    ensures Sorted(MergeWritten(runs))
    decreases |Flatten(runs)|
  {
    hide Less, EmptyKeysAfterwards;
    LiveFlatten(runs);
    if Flatten(runs) != [] {
      var m := WriterScan(runs, |runs|).1;
      WriterScanLive(runs, |runs|);
      WriterScanLeast(runs, |runs|);
      DropFlatten(runs, m);
      DropSorted(runs, m);
      DropKeepsEmptyLast(runs, m);
      WrittenSorted(Drop(runs, m));
      WrittenPermutation(Drop(runs, m));
      ConsLeast(runs, m, MergeWritten(Drop(runs, m)));
    }
  }

  /** The writer passes over a run whose head key is empty while a later run is live. */
  lemma {:induction false} EmptyHeadPassed(runs: Runs, i: nat, j: nat, n: nat)
    requires i < n <= |runs| && i < j < |runs| && runs[i] != [] && runs[i][0].key == [] && runs[j] != []
    ensures WriterScan(runs, n).1 >= i
    ensures WriterScan(runs, n).1 == i ==> WriterScan(runs, n).0 == []
    ensures j < n ==> WriterScan(runs, n).1 > i
  {
    if n - 1 == i {
    } else {
      EmptyHeadPassed(runs, i, j, n - 1);
    }
  }

  /** The iterator takes the first empty head, the writer passes over it. */
  lemma HeadsDiffer(runs: Runs, i: nat, j: nat)
    requires DistinctHeads(runs) && i < j < |runs| && runs[i] != [] && runs[i][0].key == [] && runs[j] != []
    ensures MergeWritten(runs) != MergeIterated(runs)
  {
    LiveFlatten(runs);
    var m := MinIndex(runs, |runs|);
    MinIndexFirst(runs, |runs|);
    WriterScanLive(runs, |runs|);
    EmptyHeadPassed(runs, m, j, |runs|);
    assert MergeWritten(runs)[0] == runs[WriterScan(runs, |runs|).1][0] && MergeIterated(runs)[0] == runs[m][0];
  }

  /** Sorted runs whose head entries differ: the two merges agree exactly when only the last live run has an empty
      key. */
  lemma MergesAgreeIff(runs: Runs)
    requires AllSorted(runs) && DistinctHeads(runs)
    ensures MergeWritten(runs) == MergeIterated(runs) <==> EmptyKeysOnlyLast(runs)
  {
    if EmptyKeysOnlyLast(runs) {
      MergesAgree(runs);
    } else {
      var i, j, p :| 0 <= i < j < |runs| && 0 <= p < |runs[i]| && runs[i][p].key == [] && runs[j] != [];
      assert Sorted(runs[i]) && (p == 0 || AtMost(runs[i][0].key, runs[i][p].key));
      HeadsDiffer(runs, i, j);
    }
  }

  lemma {:induction false} WrittenUnsorted(runs: Runs, i: nat, j: nat, q: nat)
    requires i < j < |runs| && runs[i] != [] && runs[i][0].key == [] && q < |runs[j]| && runs[j][q].key != []
    ensures !Sorted(MergeWritten(runs))
    decreases |Flatten(runs)|
  {
    LiveFlatten(runs);
    FlattenAt(runs, i);
    var m := WriterScan(runs, |runs|).1;
    WriterScanLive(runs, |runs|);
    EmptyHeadPassed(runs, i, j, |runs|);
    DropFlatten(runs, m);
    var dropped, e := Drop(runs, m), runs[m][0];
    var rest := MergeWritten(dropped);
    SortedCons(e, rest);
    assert dropped[i] == runs[i];
    if m == j && q == 0 {
      WrittenPermutation(dropped);
      StillThere(dropped, i);
      OutOfOrder(e, rest, runs[i][0]);
    } else {
      WrittenUnsorted(dropped, i, j, if m == j then q - 1 else q);
    }
  }

  lemma StillThere(runs: Runs, i: nat)
    requires i < |runs| && runs[i] != []
    ensures multiset(Flatten(runs))[runs[i][0]] > 0
  {
    FlattenMembers(runs, runs[i][0]);
    assert runs[i][0] in runs[i];
    assert runs[i][0] in Flatten(runs);
  }

  lemma OutOfOrder(e: Entry, rest: seq<Entry>, x: Entry)
    requires multiset(rest)[x] > 0 && Less(x.key, e.key)
    ensures !Sorted([e] + rest)
  {
    SortedCons(e, rest);
    assert x in multiset(rest);
    var p :| 0 <= p < |rest| && rest[p] == x;
  }

  /** Entries of one run come out in the order they have there, so an inversion inside a run stays one. */
  lemma {:induction false} InversionStays(runs: Runs, i: nat, p: nat, q: nat)
    requires i < |runs| && p < q < |runs[i]| && Less(runs[i][q].key, runs[i][p].key)
    ensures !Sorted(MergeWritten(runs))
    decreases |Flatten(runs)|
  {
    hide Less;
    LiveFlatten(runs);
    FlattenAt(runs, i);
    var m := WriterScan(runs, |runs|).1;
    WriterScanLive(runs, |runs|);
    DropFlatten(runs, m);
    var dropped, e := Drop(runs, m), runs[m][0];
    var rest := MergeWritten(dropped);
    SortedCons(e, rest);
    if m == i && p == 0 {
      WrittenPermutation(dropped);
      FlattenMembers(dropped, runs[i][q]);
      assert dropped[i][q - 1] == runs[i][q] && runs[i][q] in Flatten(dropped);
      OutOfOrder(e, rest, runs[i][q]);
    } else {
      InversionStays(dropped, i, if m == i then p - 1 else p, if m == i then q - 1 else q);
    }
  }

  /** Exactly when the writer's merge is sorted: the runs are, and empty keys are followed by nothing but empty keys. */
  lemma WrittenSortedIff(runs: Runs)
    ensures Sorted(MergeWritten(runs)) <==> AllSorted(runs) && EmptyKeysAfterwards(runs)
  {
    if !AllSorted(runs) {
      var i :| 0 <= i < |runs| && !Sorted(runs[i]);
      var p, q :| 0 <= p < q < |runs[i]| && !AtMost(runs[i][p].key, runs[i][q].key);
      InversionStays(runs, i, p, q);
    } else if EmptyKeysAfterwards(runs) {
      WrittenSorted(runs);
    } else {
      var i, j, p, q :| 0 <= i < j < |runs| && 0 <= p < |runs[i]| && 0 <= q < |runs[j]| && runs[i][p].key == []
          && runs[j][q].key != [];
      assert Sorted(runs[i]);
      assert p == 0 || AtMost(runs[i][0].key, runs[i][p].key);
      assert runs[i][0].key == [];
      WrittenUnsorted(runs, i, j, q);
    }
  }

  /** With non-empty keys the writer's merge of sorted runs is sorted, stable and complete. */
  lemma WrittenStable(runs: Runs)
    requires AllSorted(runs) && AllNonEmptyKeys(runs)
    ensures Sorted(MergeWritten(runs))
    ensures forall k :: OfKey(MergeWritten(runs), k) == OfKey(Flatten(runs), k)
  {
    NonEmptyKeysOnlyLast(runs);
    MergesAgree(runs);
    IteratedSorted(runs);
    forall k ensures OfKey(MergeWritten(runs), k) == OfKey(Flatten(runs), k) {
      IteratedStable(runs, k);
    }
  }

  /** Sorted lists that agree key by key are the same list. */
  lemma {:induction false} StableMergeUnique(xs: seq<Entry>, ys: seq<Entry>)
    requires Sorted(xs) && Sorted(ys) && forall k :: OfKey(xs, k) == OfKey(ys, k)
    ensures xs == ys
  {
    SameByKeySamePermutation(xs, ys);
    if xs == [] {
      assert multiset(ys) == multiset{};
      assert |multiset(ys)| == 0;
    } else {
      assert xs[0] in multiset(ys);
      assert ys != [];
      assert ys[0] in multiset(xs);
      HeadsMeet(xs, ys);
      var k := xs[0].key;
      assert OfKey(xs, k)[0] == xs[0] && OfKey(ys, k)[0] == ys[0];
      forall k ensures OfKey(xs[1..], k) == OfKey(ys[1..], k) {
        assert OfKey(xs, k) == OfKey(ys, k);
        if k == xs[0].key {
          assert OfKey(xs[1..], k) == OfKey(xs, k)[1..] && OfKey(ys[1..], k) == OfKey(ys, k)[1..];
        }
      }
      StableMergeUnique(xs[1..], ys[1..]);
      assert xs == [xs[0]] + xs[1..] && ys == [ys[0]] + ys[1..];
    }
  }

  lemma HeadsMeet(xs: seq<Entry>, ys: seq<Entry>)
    requires Sorted(xs) && Sorted(ys) && xs != [] && ys != [] && xs[0] in ys && ys[0] in xs
    ensures xs[0].key == ys[0].key
  {
    LessTotal(xs[0].key, ys[0].key);
    LessIrreflexive(xs[0].key);
    var i :| 0 <= i < |ys| && ys[i] == xs[0];
    var j :| 0 <= j < |xs| && xs[j] == ys[0];
  }

  /** An empty key followed by a live run: the writer's output is out of order, the iterator's is not. */
  lemma EmptyKeyExample(v: Bytes, w: Bytes)
    ensures var runs := [[Entry([], v)], [Entry([1], w)]];
            && AllSorted(runs) && !Sorted(MergeWritten(runs)) && Sorted(MergeIterated(runs))
            && MergeWritten(runs) != MergeIterated(runs)
  {
    var runs: Runs := [[Entry([], v)], [Entry([1], w)]];
    assert runs[0][0].key == [] && runs[1][0].key == [1];
    WrittenSortedIff(runs);
    IteratedSorted(runs);
  }
}
