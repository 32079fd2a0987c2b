// The sampled least-recently-used cache: a map onto slots, and a victim chosen among eight of them.
module Caches {
  import opened Bytes
  import opened Entries
  import opened Grouping

  const SAMPLE_SIZE: nat := 8

  datatype Slot<K, V> = Slot(key: K, value: V, time: nat)

  function Stride(maxSize: nat): nat {
    if maxSize / SAMPLE_SIZE > 2 then maxSize / SAMPLE_SIZE else 2
  }

  /** The slot that sample `i` of an eviction looks at. */
  function Sample(offset: nat, maxSize: nat, i: nat): (s: nat)
    requires maxSize > 0
    ensures s < maxSize
  {
    (offset + i * Stride(maxSize)) % maxSize
  }

  lemma SampleIs(offset: nat, maxSize: nat, i: nat)
    requires maxSize > 0
    ensures Sample(offset, maxSize, i) == (offset + i * Stride(maxSize)) % maxSize
  {
  }

  lemma StrideFits(maxSize: nat)
    requires maxSize >= 3
    ensures 0 < Stride(maxSize) < maxSize
  {
  }

  lemma RemainderAfter(a: nat, s: nat, m: nat, q: nat)
    requires 0 < s < m && q * m <= a < q * m + m
    ensures (a + s) % m == if a - q * m + s < m then a - q * m + s else a - q * m + s - m
  {
    if a - q * m + s < m {
      QuotientIs(a + s, m, q);
    } else {
      Distribute(q, 1, m);
      QuotientIs(a + s, m, q + 1);
    }
  }

  lemma RemainderMoves(a: nat, s: nat, m: nat)
    requires 0 < s < m
    ensures a % m != (a + s) % m
  {
    DivMod(a, m);
    RemainderAfter(a, s, m, a / m);
  }

  /** From three slots on, the first two samples are different slots. */
  lemma SamplesDiffer(offset: nat, maxSize: nat)
    requires maxSize >= 3
    ensures Sample(offset, maxSize, 0) != Sample(offset, maxSize, 1)
  {
    hide Stride;
    StrideFits(maxSize);
    RemainderMoves(offset, Stride(maxSize), maxSize);
    assert offset + 0 * Stride(maxSize) == offset && offset + 1 * Stride(maxSize) == offset + Stride(maxSize);
  }

  /** With one or two slots all samples are the same slot. */
  lemma SamplesSame(offset: nat, maxSize: nat, i: nat)
    requires 1 <= maxSize <= 2
    ensures Sample(offset, maxSize, i) == offset % maxSize
  {
  }

  lemma CountsOdd(maxSize: nat)
    requires maxSize in {1, 3, 5, 7}
    ensures SampleCount(maxSize) == maxSize
  {
  }

  /** How many different slots an eviction looks at. */
  function SampleCount(maxSize: nat): nat
    requires maxSize > 0
  {
    if maxSize >= 16 then 8
    else if maxSize % 2 == 0 then maxSize / 2
    else if maxSize < 8 then maxSize else 8
  }

  lemma Remainder(a: nat, d: nat, m: nat)
    requires m > 0 && a % m == (a + d) % m
    ensures d % m == 0
  {
    DivMod(a, m);
    DivMod(a + d, m);
    var q := (a + d) / m - a / m;
    assert d == q * m by {
      assert (a + d) / m * m - a / m * m == q * m;
    }
    if q < 0 {
      Monotone(1, -q, m);
    } else {
      QuotientIs(d, m, q);
    }
  }

  /** The slots of that many samples are all different. */
  lemma SamplesApart(offset: nat, maxSize: nat, i: nat, j: nat)
    requires maxSize > 0 && i < j < SampleCount(maxSize)
    ensures Sample(offset, maxSize, i) != Sample(offset, maxSize, j)
  {
    var d, stride := j - i, Stride(maxSize);
    assert offset + j * stride == offset + i * stride + d * stride;
    if Sample(offset, maxSize, i) == Sample(offset, maxSize, j) {
      Remainder(offset + i * stride, d * stride, maxSize);
      StepsShort(maxSize, d);
    }
  }

  lemma StepsShort(maxSize: nat, d: nat)
    requires maxSize > 0 && 0 < d < SampleCount(maxSize)
    ensures d * Stride(maxSize) % maxSize != 0
  {
    if maxSize >= 16 {
      WideSteps(maxSize, d, Stride(maxSize));
    } else {
      NarrowSteps(maxSize, d);
    }
  }

  lemma WideSteps(maxSize: nat, d: nat, stride: nat)
    requires 0 < d <= 7 && stride > 0 && 7 * stride < maxSize
    ensures d * stride % maxSize != 0
  {
    Monotone(d, 7, stride);
    Monotone(1, d, stride);
    QuotientIs(d * stride, maxSize, 0);
  }

  lemma NarrowSteps(maxSize: nat, d: nat)
    requires 0 < maxSize < 16 && 0 < d < SampleCount(maxSize)
    ensures d * Stride(maxSize) % maxSize != 0
  {
    assert Stride(maxSize) == 2;
    if 2 * d < maxSize {
      QuotientIs(2 * d, maxSize, 0);
    } else {
      assert 2 * d != maxSize;
      QuotientIs(2 * d, maxSize, 1);
    }
  }

  /** The first `count` samples. */
  ghost function Samples(offset: nat, maxSize: nat, count: nat): set<nat>
    requires maxSize > 0
  {
    set i | 0 <= i < count :: Sample(offset, maxSize, i)
  }

  lemma {:induction false} SamplesCounted(offset: nat, maxSize: nat, count: nat)
    requires maxSize > 0 && count <= SampleCount(maxSize)
    ensures |Samples(offset, maxSize, count)| == count
  {
    hide Sample, SampleCount;
    if count > 0 {
      SamplesCounted(offset, maxSize, count - 1);
      forall i | 0 <= i < count - 1 ensures Sample(offset, maxSize, i) != Sample(offset, maxSize, count - 1) {
        SamplesApart(offset, maxSize, i, count - 1);
      }
      assert Samples(offset, maxSize, count)
          == Samples(offset, maxSize, count - 1) + {Sample(offset, maxSize, count - 1)};
    }
  }

  lemma SubsetSize(a: set<nat>, b: set<nat>)
    requires a <= b
    ensures |a| <= |b|
  {
    assert b == a + (b - a);
  }

  ghost function Numbers(n: nat): (ns: set<nat>)
    ensures |ns| == n && forall t: nat :: t in ns <==> t < n
  {
    if n == 0 then {} else Numbers(n - 1) + {n - 1}
  }

  /** Some sample is outside any smaller set of slots. */
  lemma SampleOutside(offset: nat, maxSize: nat, slots: set<nat>) returns (i: nat)
    requires maxSize > 0 && |slots| < SampleCount(maxSize)
    ensures i < SAMPLE_SIZE && Sample(offset, maxSize, i) !in slots
  {
    hide Sample;
    var count := SampleCount(maxSize);
    var samples := Samples(offset, maxSize, count);
    SamplesCounted(offset, maxSize, count);
    if samples <= slots {
      SubsetSize(samples, slots);
    }
    assert exists s :: s in samples && s !in slots;
    i :| 0 <= i < count && Sample(offset, maxSize, i) !in slots;
  }

  /** Every slot outside the set was touched before every slot in it. */
  ghost predicate Latest<K, V>(slots: seq<Slot<K, V>>, latest: set<nat>) {
    forall s, t :: s in latest && s < |slots| && 0 <= t < |slots| && t !in latest ==> slots[t].time < slots[s].time
  }

  /** The slots touched last are safe, as long as they are fewer than the slots an eviction looks at; if it looks at all
      slots, the victim is the slot touched longest ago. */
  lemma VictimOld<K, V>(slots: seq<Slot<K, V>>, offset: nat, victim: nat)
    requires |slots| > 0 && Oldest(slots, offset, victim)
    ensures forall latest :: Latest(slots, latest) && |latest| < SampleCount(|slots|) ==> victim !in latest
    ensures SampleCount(|slots|) == |slots| ==> forall s :: 0 <= s < |slots| ==> slots[victim].time <= slots[s].time
  {
    hide Sample, SampleCount;
    forall latest | Latest(slots, latest) && |latest| < SampleCount(|slots|) ensures victim !in latest {
      var i := SampleOutside(offset, |slots|, latest);
      assert slots[victim].time <= slots[Sample(offset, |slots|, i)].time;
    }
    if SampleCount(|slots|) == |slots| {
      forall s | 0 <= s < |slots| ensures slots[victim].time <= slots[s].time {
        var i := SampleOutside(offset, |slots|, Numbers(|slots|) - {s});
        assert Sample(offset, |slots|, i) == s;
      }
    }
  }

  /** Slot `s` was touched longest ago among the samples. */
  ghost predicate Oldest<K, V>(slots: seq<Slot<K, V>>, offset: nat, s: nat)
    requires |slots| > 0
  {
    && (exists i :: 0 <= i < SAMPLE_SIZE && s == Sample(offset, |slots|, i))
    && forall i :: 0 <= i < SAMPLE_SIZE ==> s < |slots| && slots[s].time <= slots[Sample(offset, |slots|, i)].time
  }

  /** The map is a bijection onto the used slots, which come first and hold the keys that map to them. */
  ghost predicate Coherent<K, V>(slots: seq<Slot<K, V>>, index: map<K, nat>) {
    && |index| <= |slots|
    && (forall k :: k in index ==> index[k] < |index| && slots[index[k]].key == k)
    && (forall i :: 0 <= i < |index| ==> slots[i].key in index && index[slots[i].key] == i)
  }

  /** No two used slots were last touched at the same time, and the latest touch was just now. */
  ghost predicate Clocked<K, V>(slots: seq<Slot<K, V>>, used: nat, now: nat)
    requires used <= |slots|
  {
    && (forall i :: 0 <= i < used ==> slots[i].time < now)
    && (forall i, j :: 0 <= i < j < used ==> slots[i].time != slots[j].time)
    && (used > 0 ==> exists i :: 0 <= i < used && slots[i].time + 1 == now)
  }

  lemma Touched<K, V>(slots: seq<Slot<K, V>>, used: nat, now: nat, i: nat, s: Slot<K, V>, newUsed: nat)
    requires used <= newUsed <= |slots| && Clocked(slots, used, now) && i < newUsed && s.time == now
    requires newUsed == used || (newUsed == used + 1 && i == used)
    ensures Clocked(slots[i := s], newUsed, now + 1)
  {
    assert slots[i := s][i].time + 1 == now + 1;
  }

  lemma Replaced<K, V>(slots: seq<Slot<K, V>>, index: map<K, nat>, i: nat, s: Slot<K, V>)
    requires Coherent(slots, index) && i < |slots| && |index| == |slots| && s.key !in index
    ensures slots[i].key in index && Coherent(slots[i := s], (index - {slots[i].key})[s.key := i])
  {
    var after := (index - {slots[i].key})[s.key := i];
    assert after.Keys == index.Keys - {slots[i].key} + {s.key};
    assert |after| == |after.Keys| == |index.Keys| == |index|;
  }

  lemma CoherentSize<K, V>(slots: seq<Slot<K, V>>, index: map<K, nat>)
    requires Coherent(slots, index)
    ensures |index| <= |slots|
  {
  }

  lemma OneKeyMore<K, V>(m: map<K, V>, k: K, v: V)
    requires k !in m
    ensures |m[k := v]| == |m| + 1
  {
    assert m[k := v].Keys == m.Keys + {k};
    assert |m[k := v]| == |m[k := v].Keys| == |m.Keys| + 1;
  }

  lemma Appended<K, V>(slots: seq<Slot<K, V>>, index: map<K, nat>, s: Slot<K, V>)
    requires Coherent(slots, index) && |index| < |slots| && s.key !in index
    ensures |index[s.key := |index|]| == |index| + 1 && Coherent(slots[|index| := s], index[s.key := |index|])
  {
    OneKeyMore(index, s.key, |index|);
  }

  lemma TimesBelow<K, V>(slots: seq<Slot<K, V>>, now: nat)
    requires Clocked(slots, |slots|, now)
    ensures forall i :: 0 <= i < |slots| ==> slots[i].time < now
  {
  }

  lemma VictimFacts<K, V>(slots: seq<Slot<K, V>>, offset: nat, victim: nat, now: nat)
    requires |slots| > 0 && Oldest(slots, offset, victim) && Clocked(slots, |slots|, now)
    ensures |slots| >= 3 ==> victim < |slots| && slots[victim].time + 1 != now
    ensures |slots| <= 2 ==> victim == offset % |slots|
    ensures forall latest :: Latest(slots, latest) && |latest| < SampleCount(|slots|) ==> victim !in latest
    ensures |slots| in {1, 3, 5, 7} ==> forall s :: 0 <= s < |slots| ==> slots[victim].time <= slots[s].time
  {
    hide Sample, SampleCount, Latest;
    VictimOld(slots, offset, victim);
    if |slots| in {1, 3, 5, 7} {
      CountsOdd(|slots|);
    }
    if |slots| >= 3 {
      SamplesDiffer(offset, |slots|);
      assert slots[Sample(offset, |slots|, 0)].time != slots[Sample(offset, |slots|, 1)].time;
    } else {
      var j :| 0 <= j < SAMPLE_SIZE && victim == Sample(offset, |slots|, j);
      SamplesSame(offset, |slots|, j);
    }
  }

  /** Every key outside the set was used before every key in it. */
  ghost predicate LatestKeys<K, V>(slots: seq<Slot<K, V>>, index: map<K, nat>, keys: set<K>) {
    forall k, other :: k in keys && k in index && other in index && other !in keys ==>
      index[k] < |slots| && index[other] < |slots| ==> slots[index[other]].time < slots[index[k]].time
  }

  /** The key is not among the keys used last, as long as these are fewer than the slots an eviction looks at; with 3, 5
      or 7 slots it is the key used longest ago. */
  ghost predicate UsedLongAgo<K, V>(slots: seq<Slot<K, V>>, index: map<K, nat>, key: K) {
    && |slots| > 0 && key in index && index[key] < |slots|
    && (forall keys ::
         keys <= index.Keys && LatestKeys(slots, index, keys) && |keys| < SampleCount(|slots|) ==> key !in keys)
    && (|slots| in {1, 3, 5, 7} ==>
         forall k :: k in index && index[k] < |slots| ==> slots[index[key]].time <= slots[index[k]].time)
  }

  lemma {:induction false} ImageSize<K>(index: map<K, nat>, keys: set<K>)
    ensures |set k | k in keys && k in index :: index[k]| <= |keys|
    decreases |keys|
  {
    if keys != {} {
      var k :| k in keys;
      ImageSize(index, keys - {k});
      var rest := set o | o in keys - {k} && o in index :: index[o];
      var all := set o | o in keys && o in index :: index[o];
      if k in index {
        assert all == rest + {index[k]};
      } else {
        assert all == rest;
      }
    }
  }

  /** What that means for keys when all slots are used. */
  lemma EvictedOld<K, V>(slots: seq<Slot<K, V>>, index: map<K, nat>, offset: nat, victim: nat)
    requires |slots| > 0 && Coherent(slots, index) && |index| == |slots| && Oldest(slots, offset, victim)
             && victim < |slots|
    ensures UsedLongAgo(slots, index, slots[victim].key)
  {
    hide Oldest, SampleCount;
    VictimOld(slots, offset, victim);
    if |slots| in {1, 3, 5, 7} {
      CountsOdd(|slots|);
    }
    forall keys | keys <= index.Keys && LatestKeys(slots, index, keys) && |keys| < SampleCount(|slots|)
        ensures slots[victim].key !in keys {
      var latest := set k | k in keys && k in index :: index[k];
      ImageSize(index, keys);
      assert Latest(slots, latest);
      assert slots[victim].key in index && index[slots[victim].key] == victim;
    }
  }

  class RlruCache<K(==), V> {
    const maxSize: nat
    const stride: nat
    var monotonicTime: nat
    var evictSampleOffset: nat
    const items: array<Slot<K, V>>
    var index: map<K, nat>
    /** The last value put for every key ever put. */
    ghost var lastPut: map<K, V>

    ghost predicate Valid()
      reads this, items
    {
      && maxSize > 0 && items.Length == maxSize && stride == Stride(maxSize)
      && Coherent(items[..], index)
      && Clocked(items[..], |index|, monotonicTime)
      && forall k :: k in index ==> k in lastPut && items[index[k]].value == lastPut[k]
    }

    ghost predicate MostRecent(k: K)
      requires Valid()
      reads this, items
    {
      k in index && items[index[k]].time + 1 == monotonicTime
    }

    /** Without a slot, a put divides by zero in the source. */
    constructor (maxSize: nat, key: K, value: V)
      requires maxSize > 0
      ensures Valid() && index == map[] && lastPut == map[] && this.maxSize == maxSize
              && monotonicTime == evictSampleOffset == 0
      ensures fresh(items)
    {
      this.maxSize := maxSize;
      stride := Stride(maxSize);
      monotonicTime, evictSampleOffset := 0, 0;
      items := new Slot<K, V>[maxSize](_ => Slot(key, value, 0));
      index, lastPut := map[], map[];
    }

    /** Takes the sample that was touched longest ago; with three slots or more that is never the latest one, with 16 or
        more none of the latest seven, and with 3, 5 or 7 the one touched longest ago of all. */
    method Evict() returns (victim: nat)
      requires Valid() && |index| == maxSize && monotonicTime < U64_LIMIT
      modifies this`evictSampleOffset
      ensures victim < maxSize && evictSampleOffset == old(evictSampleOffset) + 1
      ensures Oldest(items[..], old(evictSampleOffset), victim)
      ensures maxSize >= 3 ==> items[victim].time + 1 != monotonicTime
      ensures maxSize <= 2 ==> victim == old(evictSampleOffset) % maxSize
      ensures forall latest :: Latest(items[..], latest) && |latest| < SampleCount(maxSize) ==> victim !in latest
      ensures maxSize in {1, 3, 5, 7} ==> forall s :: 0 <= s < maxSize ==> items[victim].time <= items[s].time
    {
      hide Sample, Coherent, SampleCount, Latest, Clocked;
      victim := 0;
      var minTime: nat := U64_LIMIT - 1;
      ghost var offset := evictSampleOffset;
      TimesBelow(items[..], monotonicTime);
      for i := 0 to SAMPLE_SIZE
        invariant evictSampleOffset == offset && (i == 0 ==> minTime == U64_LIMIT - 1)
        invariant i > 0 ==> victim < maxSize && minTime == items[victim].time && exists j ::
                  0 <= j < i && victim == Sample(offset, maxSize, j)
        invariant forall j :: 0 <= j < i ==> minTime <= items[Sample(offset, maxSize, j)].time
      {
        var at := (evictSampleOffset + i * stride) % maxSize;
        SampleIs(offset, maxSize, i);
        if items[at].time < minTime {
          victim, minTime := at, items[at].time;
          assert victim == Sample(offset, maxSize, i);
        }
      }
      evictSampleOffset := evictSampleOffset + 1;
      VictimFacts(items[..], offset, victim, monotonicTime);
    }

    /** Puts a value under a key. A new key takes a free slot, or the slot of the victim when there is none. */
    method Put(key: K, value: V) returns (ghost evicted: Option<K>)
      requires Valid() && monotonicTime < U64_LIMIT
      modifies this`monotonicTime, this`evictSampleOffset, this`index, this`lastPut, items
      ensures Valid() && monotonicTime == old(monotonicTime) + 1 && lastPut == old(lastPut)[key := value]
              && MostRecent(key)
      ensures evicted.Some? <==> key !in old(index) && |old(index)| == maxSize
      ensures evicted.Some? ==>
                && evicted.value in old(index)
                && index == (old(index) - {evicted.value})[key := old(index)[evicted.value]]
      ensures evicted.None? ==> index == if key in old(index) then old(index) else old(index)[key := |old(index)|]
      ensures evicted.Some? && maxSize >= 3 ==> !old(MostRecent(evicted.value))
      ensures evicted.Some? && maxSize <= 2 ==> old(index)[evicted.value] == old(evictSampleOffset) % maxSize
      ensures evicted.Some? ==> UsedLongAgo(old(items[..]), old(index), evicted.value)
      ensures evictSampleOffset == old(evictSampleOffset) + if evicted.Some? then 1 else 0
    {
      hide Oldest, Coherent, Clocked, UsedLongAgo;
      if key in index {
        evicted := None;
        PutPresent(key, value);
      } else if |index| < maxSize {
        evicted := None;
        PutFree(key, value);
      } else {
        CoherentSize(items[..], index);
        evicted := PutOver(key, value);
      }
    }

    // Writes the slot of a key that is present.
    method Touch(key: K, value: V)
      requires Valid() && key in index
      modifies this`monotonicTime, items
      ensures Coherent(items[..], index) && Clocked(items[..], |index|, monotonicTime)
              && monotonicTime == old(monotonicTime) + 1
      ensures items[..] == old(items[..])[index[key] := Slot(key, value, old(monotonicTime))]
      ensures forall k :: k in index && k != key ==> items[index[k]].value == old(items[index[k]].value)
    {
      hide Clocked;
      var i := index[key];
      var slot := Slot(key, value, monotonicTime);
      Touched(items[..], |index|, monotonicTime, i, slot, |index|);
      items[i] := slot;
      monotonicTime := monotonicTime + 1;
    }

    method PutPresent(key: K, value: V)
      requires Valid() && key in index
      modifies this`monotonicTime, this`lastPut, items
      ensures Valid() && monotonicTime == old(monotonicTime) + 1 && lastPut == old(lastPut)[key := value]
              && MostRecent(key)
    {
      hide Clocked;
      Touch(key, value);
      lastPut := lastPut[key := value];
    }

    method PutFree(key: K, value: V)
      requires Valid() && key !in index && |index| < maxSize
      modifies this`monotonicTime, this`index, this`lastPut, items
      ensures Valid() && monotonicTime == old(monotonicTime) + 1 && lastPut == old(lastPut)[key := value]
              && MostRecent(key)
      ensures index == old(index)[key := |old(index)|]
    {
      hide Clocked;
      var slot := Slot(key, value, monotonicTime);
      Touched(items[..], |index|, monotonicTime, |index|, slot, |index| + 1);
      Appended(items[..], index, slot);
      items[|index|] := slot;
      index := index[key := |index|];
      monotonicTime := monotonicTime + 1;
      lastPut := lastPut[key := value];
    }

    method PutOver(key: K, value: V) returns (ghost evicted: Option<K>)
      requires Valid() && key !in index && |index| == maxSize && monotonicTime < U64_LIMIT
      modifies this`monotonicTime, this`evictSampleOffset, this`index, this`lastPut, items
      ensures Valid() && monotonicTime == old(monotonicTime) + 1 && lastPut == old(lastPut)[key := value]
              && MostRecent(key)
      ensures evicted.Some? && evicted.value in old(index)
      ensures index == (old(index) - {evicted.value})[key := old(index)[evicted.value]]
      ensures maxSize >= 3 ==> !old(MostRecent(evicted.value))
      ensures maxSize <= 2 ==> old(index)[evicted.value] == old(evictSampleOffset) % maxSize
      ensures UsedLongAgo(old(items[..]), old(index), evicted.value)
      ensures evictSampleOffset == old(evictSampleOffset) + 1
    {
      hide Clocked, Oldest, UsedLongAgo, Latest, SampleCount, Stride;
      var slot := Slot(key, value, monotonicTime);
      ghost var offset := evictSampleOffset;
      var victim := Evict();
      EvictedOld(items[..], index, offset, victim);
      Replaced(items[..], index, victim, slot);
      Touched(items[..], |index|, monotonicTime, victim, slot, |index|);
      evicted := Some(items[victim].key);
      index := (index - {items[victim].key})[key := victim];
      items[victim] := slot;
      monotonicTime := monotonicTime + 1;
      lastPut := lastPut[key := value];
    }

    /** A hit returns the last value put for the key, and makes the key the most recent one. */
    method TryGet(key: K) returns (value: Option<V>)
      requires Valid()
      modifies this`monotonicTime, items
      ensures Valid() && index == old(index) && lastPut == old(lastPut)
      ensures value.Some? <==> key in index
      ensures monotonicTime == old(monotonicTime) + if value.Some? then 1 else 0
      ensures value.Some? ==> key in lastPut && value.value == lastPut[key] && MostRecent(key)
    {
      if key !in index {
        return None;
      }
      value := Some(items[index[key]].value);
      Touch(key, value.value);
    }

    predicate Exists(key: K)
      reads this
    {
      key in index
    }
  }

  /** With two slots all samples are one slot: a key can be evicted right after it was read. */
  method RecentEvicted<V>(v: V) returns (cache: RlruCache<nat, V>, hit: Option<V>, ghost evicted: Option<nat>)
    ensures hit == Some(v) && evicted == Some(1)
  {
    hide RlruCache.Valid, RlruCache.MostRecent, UsedLongAgo;
    cache := new RlruCache(2, 0, v);
    evicted := cache.Put(1, v);
    assert cache.index == map[1 := 0];
    evicted := cache.Put(2, v);
    assert cache.index == map[1 := 0, 2 := 1];
    hit := cache.TryGet(1);
    evicted := cache.Put(3, v);
  }
}
