// Sets of file iterators advanced together: the two selection loops, and the database-wide iterator.
module DbIteration {
  import opened Bytes
  import opened Entries
  import opened PbtIteration
  import opened Merging

  /** Distinct iterators, `runs[i]` being what iterator `i` still has to deliver and `keys[i]` its current key. */
  ghost predicate Cursors(itrs: seq<PbtIterator>, keys: seq<Bytes>, runs: Runs)
    reads itrs
  {
    && |itrs| == |keys| == |runs|
    && (forall i, j :: 0 <= i < j < |itrs| ==> itrs[i] != itrs[j])
    && (forall i :: 0 <= i < |itrs| ==> itrs[i].Valid() && itrs[i].Rest() == runs[i])
    && (forall i :: 0 <= i < |itrs| && runs[i] != [] ==> keys[i] == runs[i][0].key)
  }

  lemma CursorAt(itrs: seq<PbtIterator>, keys: seq<Bytes>, runs: Runs, m: nat)
    requires Cursors(itrs, keys, runs) && m < |runs| && runs[m] != []
    ensures m < |itrs| && m < |keys| && itrs[m].Valid() && itrs[m].Rest() == runs[m]
    ensures keys[m] == runs[m][0].key && itrs[m].GetValue() == runs[m][0].value
  {
  }

  /** Iterators opened so far: distinct, and each at the beginning of its run. */
  ghost predicate Opened(itrs: seq<PbtIterator>, runs: Runs)
    reads itrs
  {
    && |itrs| <= |runs|
    && (forall i, j :: 0 <= i < j < |itrs| ==> itrs[i] != itrs[j])
    && (forall i :: 0 <= i < |itrs| ==> itrs[i].Valid() && itrs[i].Rest() == runs[i])
  }

  lemma OpenedPush(itrs: seq<PbtIterator>, it: PbtIterator, runs: Runs)
    requires Opened(itrs, runs) && |itrs| < |runs| && it !in itrs && it.Valid() && it.Rest() == runs[|itrs|]
    ensures Opened(itrs + [it], runs)
  {
    hide PbtIterator.Valid;
  }

  /** The head keys of freshly opened iterators; the key of an exhausted one is left empty. */
  method ReadKeys(itrs: seq<PbtIterator>, ghost runs: Runs) returns (keys: seq<Bytes>)
    requires |itrs| == |runs| && Opened(itrs, runs)
    ensures Cursors(itrs, keys, runs)
  {
    hide PbtIterator.Valid;
    keys := [];
    for i := 0 to |itrs|
      invariant |keys| == i && forall j :: 0 <= j < i && runs[j] != [] ==> keys[j] == runs[j][0].key
    {
      assert itrs[i].Valid();
      if itrs[i].IsEnd() {
        keys := keys + [[]];
      } else {
        keys := keys + [itrs[i].GetKey()];
      }
    }
  }

  /** Moves iterator `m` on and rereads its key. */
  method Advance(itrs: seq<PbtIterator>, keys: seq<Bytes>, m: nat, ghost runs: Runs) returns (newKeys: seq<Bytes>)
    requires Cursors(itrs, keys, runs) && m < |itrs| && runs[m] != []
    modifies itrs[m]
    ensures Cursors(itrs, newKeys, Drop(runs, m))
  {
    hide PbtIterator.Valid;
    itrs[m].AtEnd();
    itrs[m].Next();
    assert forall i :: 0 <= i < |itrs| && i != m ==> itrs[i].Valid() && itrs[i].Rest() == runs[i];
    itrs[m].AtEnd();
    newKeys := if itrs[m].IsEnd() then keys else keys[m := itrs[m].GetKey()];
  }

  /** The selection loop of the database iterator. */
  method GetMinIndex(itrs: seq<PbtIterator>, keys: seq<Bytes>, ghost runs: Runs) returns (next: nat)
    requires Cursors(itrs, keys, runs) && itrs != []
    ensures next == MinIndex(runs, |runs|)
  {
    hide PbtIterator.Valid, Less;
    next := 0;
    for i := 1 to |itrs|
      invariant next == MinIndex(runs, i) && next < |itrs|
    {
      itrs[i].AtEnd();
      itrs[next].AtEnd();
      if itrs[i].IsEnd() {
        continue;
      }
      if itrs[next].IsEnd() || Less(keys[i], keys[next]) {
        next := i;
      }
    }
  }

  /** The selection loop of the writer's merge. */
  method SelectMin(itrs: seq<PbtIterator>, keys: seq<Bytes>, ghost runs: Runs) returns (minIndex: nat)
    requires Cursors(itrs, keys, runs)
    ensures minIndex == WriterScan(runs, |runs|).1
  {
    hide PbtIterator.Valid, Less;
    var minKey: Bytes := [];
    minIndex := 0;
    for i := 0 to |itrs|
      invariant (minKey, minIndex) == WriterScan(runs, i)
    {
      itrs[i].AtEnd();
      if itrs[i].IsEnd() {
        continue;
      }
      if minKey == [] || Less(keys[i], minKey) {
        minKey, minIndex := keys[i], i;
      }
    }
  }

  class DbIterator {
    var itrs: seq<PbtIterator>
    var keys: seq<Bytes>
    var current: nat
    ghost var runs: Runs

    ghost predicate Valid()
      reads this, itrs
    {
      itrs != [] && Cursors(itrs, keys, runs) && current == MinIndex(runs, |runs|)
    }

    /** Everything still to come, in the order of the merge. */
    ghost function Rest(): seq<Entry>
      reads this
    {
      MergeIterated(runs)
    }

    /** The source reads `itrs[current]` of an empty list when the database has no files. */
    constructor (itrs: seq<PbtIterator>, ghost runs: Runs)
      requires itrs != [] && |itrs| == |runs| && Opened(itrs, runs)
      ensures Valid() && Rest() == MergeIterated(runs) && this.itrs == itrs
    {
      hide PbtIterator.Valid;
      this.itrs, this.runs := itrs, runs;
      keys := [];
      current := 0;
      new;
      keys := ReadKeys(itrs, runs);
      current := GetMinIndex(itrs, keys, runs);
    }

    predicate IsEnd()
      requires Valid()
      reads this, itrs
      ensures IsEnd() <==> Rest() == []
    {
      CurrentEntry();
      itrs[current].IsEnd()
    }

    function GetKey(): (k: Bytes)
      requires Valid()
      reads this, itrs
      ensures Rest() != [] ==> k == Rest()[0].key
    {
      CurrentEntry();
      keys[current]
    }

    function GetValue(): (v: Bytes)
      requires Valid()
      reads this, itrs
      ensures Rest() != [] ==> v == Rest()[0].value
    {
      CurrentEntry();
      itrs[current].GetValue()
    }

    lemma CurrentEntry()
      requires Valid()
      ensures current < |itrs| && current < |keys| && itrs[current].Valid()
      ensures itrs[current].IsEnd() <==> Rest() == []
      ensures Rest() != [] ==>
                && runs[current] != [] && Rest() == [runs[current][0]] + MergeIterated(Drop(runs, current))
                && itrs[current].GetValue() == Rest()[0].value && keys[current] == Rest()[0].key
    {
      hide PbtIterator.Valid;
      LiveFlatten(runs);
      MinIndexFirst(runs, |runs|);
      itrs[current].AtEnd();
    }

    /** One step delivers exactly the rest of the merge without its head. */
    method Next()
      requires Valid() && !IsEnd()
      modifies this, itrs
      ensures Valid() && Rest() == old(Rest())[1..] && itrs == old(itrs)
    {
      hide PbtIterator.Valid;
      CurrentEntry();
      keys := Advance(itrs, keys, current, runs);
      runs := Drop(runs, current);
      current := GetMinIndex(itrs, keys, runs);
    }
  }

  // ---- Seeking.

  /** Each run cut at the lower bound of the key. */
  ghost predicate CutAt(runs: Runs, key: Bytes, cut: Runs) {
    && |cut| == |runs|
    && forall i :: 0 <= i < |runs| ==> CutRun(runs[i], key, cut[i])
  }

  ghost predicate CutRun(run: seq<Entry>, key: Bytes, cut: seq<Entry>) {
    exists at: nat :: at <= |run| && IsLowerBound(run, key, at) && cut == run[at..]
  }

  /** Cutting at a lower bound keeps the keys that are not below it, and drops the others. */
  lemma SuffixOfKey(run: seq<Entry>, key: Bytes, at: nat, k: Bytes)
    requires at <= |run| && IsLowerBound(run, key, at)
    ensures OfKey(run[at..], k) == if AtMost(key, k) then OfKey(run, k) else []
  {
    assert run == run[..at] + run[at..];
    OfKeyConcat(run[..at], run[at..], k);
    if AtMost(key, k) {
      NoneOfKey(run[..at], k);
    } else {
      NoneOfKey(run[at..], k);
    }
  }

  lemma {:induction false} CutOfKey(runs: Runs, key: Bytes, cut: Runs, k: Bytes)
    requires CutAt(runs, key, cut)
    ensures OfKey(Flatten(cut), k) == if AtMost(key, k) then OfKey(Flatten(runs), k) else []
  {
    hide Less, IsLowerBound;
    if runs != [] {
      assert CutRun(runs[0], key, cut[0]);
      var at: nat :| at <= |runs[0]| && IsLowerBound(runs[0], key, at) && cut[0] == runs[0][at..];
      SuffixOfKey(runs[0], key, at, k);
      forall i | 0 <= i < |runs[1..]| ensures CutRun(runs[1..][i], key, cut[1..][i]) {
        assert CutRun(runs[i + 1], key, cut[i + 1]);
      }
      CutOfKey(runs[1..], key, cut[1..], k);
      OfKeyConcat(runs[0], Flatten(runs[1..]), k);
      OfKeyConcat(cut[0], Flatten(cut[1..]), k);
    }
  }

  lemma SuffixSorted(run: seq<Entry>, at: nat)
    requires Sorted(run) && at <= |run|
    ensures Sorted(run[at..])
  {
  }

  /** Seeking every file and merging is merging every file and seeking: the iterator starts at the lower bound of the
      whole. */
  lemma SeekIsSuffix(runs: Runs, key: Bytes, cut: Runs, at: nat)
    requires AllSorted(runs) && CutAt(runs, key, cut)
    requires at <= |MergeIterated(runs)| && IsLowerBound(MergeIterated(runs), key, at)
    ensures MergeIterated(cut) == MergeIterated(runs)[at..]
  {
    hide Less, IsLowerBound, MergeIterated, Sorted;
    var all := MergeIterated(runs);
    forall i | 0 <= i < |cut| ensures Sorted(cut[i]) {
      assert CutRun(runs[i], key, cut[i]) && Sorted(runs[i]);
      var a: nat :| a <= |runs[i]| && IsLowerBound(runs[i], key, a) && cut[i] == runs[i][a..];
      SuffixSorted(runs[i], a);
    }
    IteratedSorted(runs);
    IteratedSorted(cut);
    SuffixSorted(all, at);
    forall k ensures OfKey(MergeIterated(cut), k) == OfKey(all[at..], k) {
      IteratedStable(runs, k);
      IteratedStable(cut, k);
      CutOfKey(runs, key, cut, k);
      SuffixOfKey(all, key, at, k);
    }
    StableMergeUnique(MergeIterated(cut), all[at..]);
  }
}
