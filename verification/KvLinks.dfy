// What ties the concrete database (buffer, readers, directory) to the state machine, and what each operation does to
// the tie.
// The link is a predicate on values, so that what an operation does to it can be shown without an object at hand.
module KvLinks {
  import opened Bytes
  import opened Entries
  import opened Packing
  import opened Reading
  import opened FileNames
  import opened Levels
  import opened LevelManagement
  import opened Database
  import opened DbRuns
  import opened ReaderMaps

  datatype KvConfig = KvConfig(maxBufferSize: nat, maxLevelCount: nat, writer: WriterConfig)

  function ConfigOf(config: KvConfig): Config {
    Config(config.maxBufferSize, config.maxLevelCount)
  }

  /** There is room for every file that could be formed from these entries: its sizes and positions fit 64 bits. */
  ghost predicate Room(held: multiset<Entry>, cfg: WriterConfig)
    requires cfg.Allowed()
  {
    forall es: seq<Entry>, start: nat :: multiset(es) <= held && start + |es| <= |held| ==> Fits(es, cfg, start)
  }

  ghost function Held(db: Db): multiset<Entry> {
    multiset(Contents(db)) + multiset(db.buffer)
  }

  /** File names can still be formed: the index and level counters are inside the widths of their fields. */
  ghost predicate NamesLeft(s: State) {
    s.nextIndex + 1 < U64_LIMIT && |s.levels| < 99_999_999
  }

  lemma NamedIfSmall(id: FileId)
    requires id.index < U64_LIMIT && id.level < 99_999_999
    ensures Named(id)
  {
    TenEight();
    FileNameExists(id.index, id.level);
  }

  lemma RoomCounts(held: multiset<Entry>, cfg: WriterConfig)
    requires cfg.Allowed() && Room(held, cfg)
    ensures |held| < U64_LIMIT
  {
    hide PbtImage;
    assert Fits([], cfg, |held|);
  }

  // ---- What one operation does to readers and directory.

  lemma AppendMatches(m: ReaderMap, before: Files, after: Files, cfgs: Configs, newCfgs: Configs, ids: seq<FileId>,
          id: FileId, r: Reader)
    requires MapMatches(m, before, cfgs, ids)
    requires forall k :: k in ids ==>
               && k in before && k in after && before[k] == after[k]
               && k in cfgs && k in newCfgs && cfgs[k] == newCfgs[k]
    requires ReaderMatches((NameOf(id), r), after, newCfgs, id)
    ensures MapMatches(m + [(NameOf(id), r)], after, newCfgs, ids + [id])
  {
    hide NameOf, Named, Reader.Holds;
    var more, all := m + [(NameOf(id), r)], ids + [id];
    forall i | 0 <= i < |more| ensures ReaderMatches(more[i], after, newCfgs, all[i]) {
      if i < |m| {
        assert ReaderMatches(m[i], before, cfgs, ids[i]);
        assert ids[i] in ids;
      }
    }
  }

  lemma MatchedIds(m: ReaderMap, files: Files, cfgs: Configs, ids: seq<FileId>)
    requires MapMatches(m, files, cfgs, ids)
    ensures forall id :: id in ids ==> id in files && id in cfgs && Named(id)
  {
    hide NameOf, Named, Reader.Holds;
    forall id | id in ids ensures id in files && id in cfgs && Named(id) {
      var i :| 0 <= i < |ids| && ids[i] == id;
      assert ReaderMatches(m[i], files, cfgs, ids[i]);
    }
  }

  lemma PrefixMatches(m: ReaderMap, files: Files, cfgs: Configs, keep: seq<FileId>, tail: seq<FileId>)
    requires MapMatches(m, files, cfgs, keep + tail)
    ensures |m| == |keep| + |tail| && MapMatches(m[..|keep|], files, cfgs, keep)
  {
    hide NameOf, Named, Reader.Holds;
    forall i | 0 <= i < |keep| ensures ReaderMatches(m[..|keep|][i], files, cfgs, keep[i]) {
      assert ReaderMatches(m[i], files, cfgs, (keep + tail)[i]);
    }
  }

  /** A new name in the directory, with its reader behind the others. */
  lemma DiskAppend(disk: map<string, Bytes>, m: ReaderMap, name: string, r: Reader)
    requires DiskMatches(disk, m) && forall i :: 0 <= i < |m| ==> m[i].0 != name
    ensures DiskMatches(disk[name := r.storage], m + [(name, r)])
  {
    var after, more := disk[name := r.storage], m + [(name, r)];
    forall n | n in after ensures exists i :: 0 <= i < |more| && more[i].0 == n {
      if n == name {
        assert more[|m|].0 == n;
      } else {
        var i :| 0 <= i < |m| && m[i].0 == n;
        assert more[i].0 == n;
      }
    }
  }

  lemma DiskMerge(disk: map<string, Bytes>, m: ReaderMap, k: nat, names: set<string>)
    requires DiskMatches(disk, m) && k <= |m|
    requires forall i :: 0 <= i < |m| ==> (m[i].0 in names <==> i >= k)
    ensures DiskMatches(disk - names, m[..k])
  {
    forall n | n in disk - names ensures exists i :: 0 <= i < |m[..k]| && m[..k][i].0 == n {
      var i :| 0 <= i < |m| && m[i].0 == n;
      assert m[..k][i].0 == n;
    }
  }

  lemma NamesDistinct(m: ReaderMap, files: Files, cfgs: Configs, ids: seq<FileId>, id: FileId)
    requires MapMatches(m, files, cfgs, ids) && Named(id) && id !in ids
    ensures forall i :: 0 <= i < |m| ==> m[i].0 != NameOf(id)
  {
    hide NameOf, Named, Reader.Holds;
    forall i | 0 <= i < |m| ensures m[i].0 != NameOf(id) {
      assert ReaderMatches(m[i], files, cfgs, ids[i]);
      assert ids[i] in ids;
      NamesInjective(ids[i], id);
    }
  }

  lemma SourceNames(m: ReaderMap, files: Files, cfgs: Configs, keep: seq<FileId>, tail: seq<FileId>,
          sources: seq<FileId>)
    requires MapMatches(m, files, cfgs, keep + tail) && multiset(sources) == multiset(tail)
    requires forall id :: id in keep ==> id !in tail
    ensures forall i :: 0 <= i < |m| ==> (m[i].0 in NamesOf(sources) <==> i >= |keep|)
  {
    hide NameOf, Named, Reader.Holds;
    forall i | 0 <= i < |m| ensures m[i].0 in NamesOf(sources) <==> i >= |keep| {
      assert ReaderMatches(m[i], files, cfgs, (keep + tail)[i]);
      if i < |keep| {
        KeepUnnamed(m, files, cfgs, keep, tail, sources, i);
      } else {
        assert tail[i - |keep|] in multiset(sources);
        var k :| 0 <= k < |sources| && sources[k] == tail[i - |keep|];
        assert NamesOf(sources)[k] == m[i].0;
      }
    }
  }

  /** Every file that is new was written with this configuration. */
  ghost predicate WrittenWith(before: Configs, after: Configs, cfg: WriterConfig) {
    forall id :: id in after ==> after[id] == cfg || (id in before && before[id] == after[id])
  }

  /** Concrete and abstract state agree; the abstract state is consistent. */
  ghost predicate Linked(config: KvConfig, buffered: seq<Entry>, s: State, readers: ReaderMap,
          disk: map<string, Bytes>, db: Db, cfgs: Configs) {
    && config.writer.Allowed() && config.maxLevelCount > 0
    && Inv(db) && buffered == db.buffer && s == db.lm
    && MapMatches(readers, db.files, cfgs, Order(db.lm.levels, 0))
    && DiskMatches(disk, readers)
  }

  lemma LinkedEmpty(config: KvConfig)
    requires config.writer.Allowed() && config.maxLevelCount > 0
    ensures Linked(config, [], INITIAL, [], map[], EMPTY, map[])
  {
    EmptyInv();
  }
}
