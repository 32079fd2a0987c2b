// Opening a directory that a database left behind: the readers and the level manager come back exactly.
// The directory may be listed in any order; the reader map is filled level by level and still ends up sorted by name.
module KvOpening {
  import opened Bytes
  import opened Structures
  import opened Packing
  import opened StoredFile
  import opened Reading
  import opened FileNames
  import opened Levels
  import opened LevelManagement
  import opened Database
  import opened DbRuns
  import opened ReaderMaps
  import opened KvLinks

  /** The directory entries, each once, in any order. */
  ghost predicate IsDirectoryOf(names: seq<string>, disk: map<string, Bytes>) {
    && (forall n :: n in names <==> n in disk)
    && forall i, j :: 0 <= i < j < |names| ==> names[i] != names[j]
  }

  datatype OpenFlags = OpenFlags(errorIfExists: bool, deleteIfExists: bool, createIfMissing: bool)

  /** A directory found at the path: the names in the order it lists them, and the files. */
  datatype Directory = Directory(names: seq<string>, files: map<string, Bytes>)

  /** The directory is what a database with these readers left behind. */
  ghost predicate LeftBehind(dir: Directory, before: Db, full: ReaderMap, cfgs: Configs) {
    && Inv(before) && MapMatches(full, before.files, cfgs, Order(before.lm.levels, 0)) && DiskMatches(dir.files, full)
    && IsDirectoryOf(dir.names, dir.files)
  }

  lemma NameParses(id: FileId)
    requires Named(id)
    ensures ParseFileName(NameOf(id)).Some? && ParsedId(NameOf(id)) == id
  {
    hide FileName, ParseFileName;
    NameRoundTrip(id.index, id.level);
  }

  /** Every file of the directory is the file of one listed id. */
  lemma NameOfFile(disk: map<string, Bytes>, m: ReaderMap, files: Files, cfgs: Configs, ids: seq<FileId>, name: string)
    requires MapMatches(m, files, cfgs, ids) && DiskMatches(disk, m) && name in disk
    ensures ParseFileName(name).Some? && ParsedId(name) in ids && Named(ParsedId(name))
            && name == NameOf(ParsedId(name))
    ensures var id := ParsedId(name);
            id in files && id in cfgs && IsFile(disk[name], files[id].entries, cfgs[id], files[id].start)
  {
    hide NameOf, Named, ParseFileName, IsFile, FooterOf;
    var i :| 0 <= i < |m| && m[i].0 == name;
    assert ReaderMatches(m[i], files, cfgs, ids[i]);
    NameParses(ids[i]);
  }

  lemma FileInDisk(disk: map<string, Bytes>, m: ReaderMap, files: Files, cfgs: Configs, ids: seq<FileId>, id: FileId)
    requires MapMatches(m, files, cfgs, ids) && DiskMatches(disk, m) && id in ids
    ensures NameOf(id) in disk && ParseFileName(NameOf(id)).Some? && ParsedId(NameOf(id)) == id
    ensures OpenReader(disk[NameOf(id)]).Some? && (NameOf(id), OpenReader(disk[NameOf(id)]).value) in m
  {
    hide NameOf, Named, ParseFileName, IsFile, FooterOf, OpenReader;
    var i :| 0 <= i < |ids| && ids[i] == id;
    assert ReaderMatches(m[i], files, cfgs, ids[i]);
    NameParses(id);
    OpenFinished(m[i].1.storage, files[id].entries, cfgs[id], files[id].start);
    assert OpenReader(m[i].1.storage).value == m[i].1;
    assert m[i] in m;
  }

  /** The names of a directory with these readers parse to exactly these files. */
  lemma MatchedParses(names: seq<string>, disk: map<string, Bytes>, m: ReaderMap, files: Files, cfgs: Configs,
          ids: seq<FileId>)
    requires MapMatches(m, files, cfgs, ids) && DiskMatches(disk, m) && IsDirectoryOf(names, disk)
    ensures AllParse(names)
    ensures forall id :: id in IdsOf(names) <==> id in ids
    ensures forall i, j :: 0 <= i < j < |names| ==> IdsOf(names)[i] != IdsOf(names)[j]
  {
    hide MapMatches, DiskMatches, NameOf, Named, ParseFileName, IsFile, ParsedId;
    var all := IdsOf(names);
    forall i | 0 <= i < |names| ensures ParseFileName(names[i]).Some? && all[i] in ids && NameOf(all[i]) == names[i] {
      assert names[i] in names;
      NameOfFile(disk, m, files, cfgs, ids, names[i]);
    }
    forall id | id in ids ensures id in all {
      FileInDisk(disk, m, files, cfgs, ids, id);
      var i :| 0 <= i < |names| && names[i] == NameOf(id);
      assert all[i] == id;
    }
  }

  /** ... and the newest name's footer ends where the newest file does. */
  lemma MatchedNewest(names: seq<string>, disk: map<string, Bytes>, m: ReaderMap, files: Files, cfgs: Configs,
          ids: seq<FileId>)
    requires MapMatches(m, files, cfgs, ids) && DiskMatches(disk, m) && IsDirectoryOf(names, disk) && names != []
    ensures var id := NewestFile(IdsOf(names));
            && FooterReadable(disk, NewestName(names))
            && FooterIn(disk[NewestName(names)]).globalEnd == StartAt(files, id) + |EntriesAt(files, id)|
  {
    hide MapMatches, DiskMatches, NameOf, Named, ParseFileName, IsFile, ParsedId, NewestName, NewestFile, FooterIn;
    var newest := NewestName(names);
    NameOfFile(disk, m, files, cfgs, ids, newest);
    NewestFooter(disk[newest], files, cfgs, ParsedId(newest));
  }

  /** What a closed database leaves behind lists its files, and the newest footer ends where the next flush starts. */
  lemma DirectoryLists(names: seq<string>, disk: map<string, Bytes>, m: ReaderMap, db: Db, cfgs: Configs)
    requires Inv(db) && MapMatches(m, db.files, cfgs, Order(db.lm.levels, 0)) && DiskMatches(disk, m)
             && IsDirectoryOf(names, disk)
    ensures AllParse(names) && IsListing(db, IdsOf(names))
    ensures names != [] ==>
              var id := NewestFile(IdsOf(names));
              && FooterReadable(disk, NewestName(names))
              && FooterIn(disk[NewestName(names)]).globalEnd == StartAt(db.files, id) + |EntriesAt(db.files, id)|
  {
    hide MapMatches, DiskMatches, NewestName, NewestFile, FooterIn, AllParse, Consistent, Contiguous, IsDirectoryOf;
    hide Joined, ParsedId, Order;
    MatchedParses(names, disk, m, db.files, cfgs, Order(db.lm.levels, 0));
    if names != [] {
      MatchedNewest(names, disk, m, db.files, cfgs, Order(db.lm.levels, 0));
    }
  }

  lemma NewestFooter(image: Bytes, files: Files, cfgs: Configs, id: FileId)
    requires id in files && id in cfgs && IsFile(image, files[id].entries, cfgs[id], files[id].start)
    ensures |image| >= FOOTER_SIZE && FooterIn(image).Validate()
    ensures FooterIn(image).globalEnd == StartAt(files, id) + |EntriesAt(files, id)|
  {
    hide IsFile, ReadFooter, Packing.Levels;
    FooterReads(image, files[id].entries, cfgs[id], files[id].start);
  }

  /** Whatever state the level manager loads from the directory is the one the database closed with. */
  lemma LoadedIsClosed(names: seq<string>, disk: map<string, Bytes>, m: ReaderMap, db: Db, cfgs: Configs, s: State)
    requires Inv(db) && MapMatches(m, db.files, cfgs, Order(db.lm.levels, 0)) && DiskMatches(disk, m)
             && IsDirectoryOf(names, disk)
    requires AllParse(names) && IsListing(db, IdsOf(names))
    requires names != [] ==>
               && FooterReadable(disk, NewestName(names))
               && s == Loaded(IdsOf(names), FooterIn(disk[NewestName(names)]).globalEnd)
    requires names == [] ==> s == INITIAL
    ensures s == db.lm && Reopen(db, IdsOf(names)) == db.(buffer := [])
  {
    hide MapMatches, DiskMatches, IsFile, ParsedId, Inv, NewestName, NewestFile, FooterReadable, IsListing;
    hide IsDirectoryOf, AllParse;
    DirectoryLists(names, disk, m, db, cfgs);
    ReopenIsIdentity(db, IdsOf(names));
  }

  lemma Reopened(db: Db)
    requires Inv(db)
    ensures Inv(db.(buffer := [])) && Increasing(Order(db.lm.levels, 0))
  {
    hide Contiguous, Order, Joined;
  }

  // ---- Any directory.

  ghost predicate Readable(files: map<string, Bytes>, name: string) {
    name in files && OpenReader(files[name]).Some?
  }

  /** The names and footers that opening looks at are in order. */
  ghost predicate Loadable(dir: Directory) {
    && AllParse(dir.names)
    && (dir.names != [] ==> FooterReadable(dir.files, NewestName(dir.names)))
    && forall id :: id in IdsOf(dir.names) ==> Readable(dir.files, NameOf(id))
  }

  ghost function LoadedState(dir: Directory): State
    requires Loadable(dir)
  {
    if dir.names == [] then INITIAL else Loaded(IdsOf(dir.names), FooterIn(dir.files[NewestName(dir.names)]).globalEnd)
  }

  /** The map holds exactly the readers of the files with these names, sorted by name. */
  ghost predicate ReadersOf(m: ReaderMap, files: map<string, Bytes>, names: seq<string>) {
    && SortedMap(m)
    && forall p: (string, Reader) :: p in m <==>
         p.0 in names && Readable(files, p.0) && OpenReader(files[p.0]).value == p.1
  }

  lemma ReadersNone(files: map<string, Bytes>, names: seq<string>)
    ensures ReadersOf([], files, names[..0])
  {
  }

  lemma ReadersStep(m: ReaderMap, files: map<string, Bytes>, names: seq<string>, i: nat)
    requires i < |names| && ReadersOf(m, files, names[..i]) && Readable(files, names[i])
    ensures ReadersOf(Put(m, names[i], OpenReader(files[names[i]]).value), files, names[..i + 1])
  {
    hide Put, NameLess, OpenReader;
    PutMembers(m, names[i], OpenReader(files[names[i]]).value);
    assert names[..i + 1] == names[..i] + [names[i]];
  }

  lemma ReadersSame(m: ReaderMap, files: map<string, Bytes>, names: seq<string>, others: seq<string>)
    requires ReadersOf(m, files, names) && forall n :: n in names <==> n in others
    ensures ReadersOf(m, files, others)
  {
    hide NameLess, OpenReader;
  }

  lemma SameNames(a: seq<FileId>, b: seq<FileId>)
    requires forall id :: id in a <==> id in b
    ensures forall n :: n in NamesOf(a) <==> n in NamesOf(b)
  {
    hide NameOf;
    forall n | n in NamesOf(a) ensures n in NamesOf(b) {
      NamedIn(a, b, n);
    }
    forall n | n in NamesOf(b) ensures n in NamesOf(a) {
      NamedIn(b, a, n);
    }
  }

  lemma NamedIn(a: seq<FileId>, b: seq<FileId>, n: string)
    requires n in NamesOf(a) && forall id :: id in a ==> id in b
    ensures n in NamesOf(b)
  {
    hide NameOf;
    var i :| 0 <= i < |NamesOf(a)| && NamesOf(a)[i] == n;
    assert a[i] in b;
    var j :| 0 <= j < |b| && b[j] == a[i];
    assert NamesOf(b)[j] == n;
  }

  /** The files that the loaded levels list are those of the directory. */
  lemma UnmergedNames(dir: Directory, s: State)
    requires dir.names != [] ==> s.levels == SortLevels(LoadedLevels(IdsOf(dir.names)))
    requires dir.names == [] ==> s == INITIAL
    ensures forall n :: n in NamesOf(Listed(s.levels, |s.levels|)) <==> n in NamesOf(IdsOf(dir.names))
    ensures (forall id :: id in IdsOf(dir.names) ==> Readable(dir.files, NameOf(id)))
            <==> forall n :: n in NamesOf(Listed(s.levels, |s.levels|)) ==> Readable(dir.files, n)
  {
    hide NameOf, ParsedId, LoadedLevels, SortLevels, Readable;
    var ids, listed := IdsOf(dir.names), Listed(s.levels, |s.levels|);
    if dir.names == [] {
      assert Listed([[]], 1) == Listed([[]], 0) + Ids([[]], 0) == [];
    } else {
      LoadedMembers(ids);
    }
    SameNames(listed, ids);
    forall id | id in ids ensures NameOf(id) in NamesOf(ids) {
      var i :| 0 <= i < |ids| && ids[i] == id;
      assert NamesOf(ids)[i] == NameOf(id);
    }
  }

  lemma LoadedIs(dir: Directory, s: State)
    requires AllParse(dir.names) && (dir.names != [] ==> FooterReadable(dir.files, NewestName(dir.names)))
    requires dir.names == [] ==> s == INITIAL
    requires dir.names != [] ==> s == Loaded(IdsOf(dir.names), FooterIn(dir.files[NewestName(dir.names)]).globalEnd)
    ensures dir.names != [] ==> s.levels == SortLevels(LoadedLevels(IdsOf(dir.names)))
    ensures Loadable(dir) ==> s == LoadedState(dir)
    ensures Loadable(dir) <==> forall id :: id in IdsOf(dir.names) ==> Readable(dir.files, NameOf(id))
  {
    hide AllParse, NewestName, NameOf, ParsedId, SortLevels, LoadedLevels, Readable, FooterIn, LoadedNext;
  }

  // ---- A directory that was left behind.

  /** Whatever files they are, a directory of finished files under their names loads. */
  lemma MatchedLoads(dir: Directory, m: ReaderMap, files: Files, cfgs: Configs, ids: seq<FileId>)
    requires MapMatches(m, files, cfgs, ids) && DiskMatches(dir.files, m) && IsDirectoryOf(dir.names, dir.files)
    ensures Loadable(dir)
  {
    hide MapMatches, DiskMatches, NameOf, ParsedId, NewestName, NewestFile, FooterIn, AllParse, OpenReader;
    hide IsDirectoryOf;
    MatchedParses(dir.names, dir.files, m, files, cfgs, ids);
    if dir.names != [] {
      MatchedNewest(dir.names, dir.files, m, files, cfgs, ids);
    }
    forall id | id in IdsOf(dir.names) ensures Readable(dir.files, NameOf(id)) {
      FileInDisk(dir.files, m, files, cfgs, ids, id);
    }
  }

  /** ... and the readers loaded from it are those of its files. */
  lemma MatchedReaders(dir: Directory, m: ReaderMap, files: Files, cfgs: Configs, ids: seq<FileId>, loaded: ReaderMap)
    requires MapMatches(m, files, cfgs, ids) && DiskMatches(dir.files, m) && IsDirectoryOf(dir.names, dir.files)
             && SortedMap(m)
    requires ReadersOf(loaded, dir.files, NamesOf(IdsOf(dir.names)))
    ensures loaded == m
  {
    hide NameOf, ParsedId, OpenReader, MapMatches, DiskMatches, NameLess, AllParse, IsDirectoryOf;
    var all := IdsOf(dir.names);
    MatchedParses(dir.names, dir.files, m, files, cfgs, ids);
    forall p: (string, Reader) ensures p in loaded <==> p in m {
      if p in loaded {
        var i :| 0 <= i < |all| && NamesOf(all)[i] == p.0;
        assert all[i] in ids;
        FileInDisk(dir.files, m, files, cfgs, ids, all[i]);
      }
      if p in m {
        ReaderNamed(m, files, cfgs, ids, all, p);
        var i :| 0 <= i < |all| && all[i] in ids && NameOf(all[i]) == p.0;
        assert NamesOf(all)[i] == p.0;
        FileInDisk(dir.files, m, files, cfgs, ids, all[i]);
        OneReader(m, p, (p.0, OpenReader(dir.files[p.0]).value));
      }
    }
    SortedMapUnique(loaded, m);
  }

  lemma LeftBehindLoads(dir: Directory, before: Db, full: ReaderMap, cfgs: Configs)
    requires LeftBehind(dir, before, full, cfgs)
    ensures Loadable(dir)
  {
    hide Loadable, MapMatches, DiskMatches, IsDirectoryOf, Inv, Order;
    MatchedLoads(dir, full, before.files, cfgs, Order(before.lm.levels, 0));
  }

  /** Whatever readers and state are loaded from it are those the database closed with. */
  lemma LoadLinks(config: KvConfig, dir: Directory, before: Db, full: ReaderMap, cfgs: Configs, s: State, m: ReaderMap)
    requires config.writer.Allowed() && config.maxLevelCount > 0
    requires LeftBehind(dir, before, full, cfgs) && Loadable(dir) && s == LoadedState(dir)
    requires ReadersOf(m, dir.files, NamesOf(IdsOf(dir.names)))
    ensures m == full && before.(buffer := []) == Reopen(before, IdsOf(dir.names))
    ensures Linked(config, [], s, m, dir.files, before.(buffer := []), cfgs)
  {
    hide MapMatches, DiskMatches, NameOf, ParsedId, Inv, NewestName, NewestFile, FooterIn, AllParse, OpenReader, Order;
    hide IsListing, Loaded;
    hide FooterReadable, IsDirectoryOf, ReadersOf, Readable, Reopen, ReaderMaps.SortedMap;
    DirectoryLists(dir.names, dir.files, full, before, cfgs);
    LoadedIsClosed(dir.names, dir.files, full, before, cfgs, s);
    Reopened(before);
    MatchingMapSorted(full, before.files, cfgs, Order(before.lm.levels, 0));
    MatchedReaders(dir, full, before.files, cfgs, Order(before.lm.levels, 0), m);
  }

  lemma ReaderNamed(full: ReaderMap, files: Files, cfgs: Configs, order: seq<FileId>, ids: seq<FileId>,
          p: (string, Reader))
    requires MapMatches(full, files, cfgs, order) && p in full && forall id :: id in ids <==> id in order
    ensures exists i :: 0 <= i < |ids| && ids[i] in order && NameOf(ids[i]) == p.0
  {
    hide NameOf, Named, Reader.Holds;
    var k :| 0 <= k < |full| && full[k] == p;
    assert ReaderMatches(full[k], files, cfgs, order[k]);
    assert order[k] in ids;
  }

  lemma OneReader(full: ReaderMap, p: (string, Reader), q: (string, Reader))
    requires SortedMap(full) && p in full && q in full && p.0 == q.0
    ensures p == q
  {
    hide NameLess;
    var i :| 0 <= i < |full| && full[i] == p;
    var j :| 0 <= j < |full| && full[j] == q;
    NameLessTotal(p.0, p.0);
  }
}
