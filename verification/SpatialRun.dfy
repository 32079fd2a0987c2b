// The spatial object follows whole runs, and its search is brute force.
module SpatialRuns {
  import opened Bytes
  import opened Entries
  import opened Packing
  import opened FileSizes
  import opened Buffering
  import opened LevelManagement
  import opened Database
  import opened DbRuns
  import opened KvLinks
  import opened KvOpening
  import opened KvDatabase
  import opened KvRuns
  import opened SpatialDb
  import opened BoxSearches

  /** The configuration the key-value database is opened with. */
  function Reducing(config: KvConfig): KvConfig {
    config.(writer := config.writer.(reduce := Some(ReducedValue)))
  }

  lemma ReducesBoxes(config: KvConfig)
    ensures ReducesTo(Reducing(config).writer, BOX_SIZE)
  {
    hide UnionOf;
    forall values: seq<Bytes> ensures |Reducing(config).writer.Reduce(values)| <= BOX_SIZE {
      assert |BoxImage(UnionOf(values))| == BOX_SIZE;
    }
  }

  lemma {:induction false} RunOfEvents(cfg: Database.Config, evs: seq<HrEvent>)
    requires cfg.maxLevelCount > 0 && forall i :: 0 <= i < |evs| ==> EventFits(evs[i])
    ensures HrRun(cfg, evs).kv == Run(cfg, OpsOf(evs))
  {
    hide Step, KvOperation;
    if evs != [] {
      RunOfEvents(cfg, evs[..|evs| - 1]);
      assert OpsOf(evs)[..|evs| - 1] == OpsOf(evs[..|evs| - 1]);
    }
  }

  lemma ListingsOfEvents(cfg: Database.Config, evs: seq<HrEvent>)
    requires cfg.maxLevelCount > 0 && HrWellFormed(cfg, evs)
    ensures Listings(cfg, OpsOf(evs))
  {
    hide Run, HrRun, IsListing;
    var ops := OpsOf(evs);
    forall n | 0 <= n < |ops| && ops[n].ReopenOp? ensures IsListing(Run(cfg, ops[..n]).db, ops[n].listing) {
      RunOfEvents(cfg, evs[..n]);
      assert ops[..n] == OpsOf(evs[..n]);
      assert evs[n].Reopened? && evs[n].listing == ops[n].listing;
    }
  }

  /** A configuration the spatial database can be opened with: no reduction of the caller's own. */
  predicate Opens(config: KvConfig) {
    config.maxLevelCount > 0 && config.writer.Allowed() && config.writer.reduce.None?
  }

  /** The writer configurations that reopenings bring. */
  function WritersOf(config: KvConfig, evs: seq<HrEvent>): (writers: seq<WriterConfig>)
    ensures |writers| == |evs|
    ensures forall i :: 0 <= i < |evs| ==>
              writers[i] == Reducing(if evs[i].Reopened? then evs[i].config else config).writer
  {
    seq(|evs|, i requires 0 <= i < |evs| => Reducing(if evs[i].Reopened? then evs[i].config else config).writer)
  }

  /** What a caller can check before a run of boxes. */
  ghost predicate EventsFit(config: KvConfig, evs: seq<HrEvent>) {
    && Opens(config) && (forall i :: 0 <= i < |evs| && evs[i].Reopened? ==> Opens(evs[i].config))
    && HrWellFormed(ConfigOf(config), evs) && NamesLast(ConfigOf(config), OpsOf(evs))
    && SizeBound(|Adds(OpsOf(evs))|, DataSize(Adds(OpsOf(evs))), BOX_SIZE) < U64_LIMIT
  }

  lemma EventsReady(config: KvConfig, evs: seq<HrEvent>)
    requires EventsFit(config, evs)
    ensures Opens(config) && (forall i :: 0 <= i < |evs| && evs[i].Reopened? ==> Opens(evs[i].config))
    ensures forall i :: 0 <= i < |evs| ==> EventFits(evs[i])
    ensures RunFits(Reducing(config), OpsOf(evs), WritersOf(config, evs), BOX_SIZE)
  {
    hide Run, HrRun, Listings, SizeBound, ReducesTo;
    var writers := WritersOf(config, evs);
    ReducesBoxes(config);
    ListingsOfEvents(ConfigOf(config), evs);
    forall n | 0 <= n < |writers| ensures writers[n].Allowed() && ReducesTo(writers[n], BOX_SIZE) {
      ReducesBoxes(if evs[n].Reopened? then evs[n].config else config);
    }
  }

  /** One event on the object; reopening continues with a new object, and configuration, on the same directory. */
  method PerformEvent(hr: HrDb, ev: HrEvent) returns (next: HrDb)
    requires hr.Valid() && hr.kvdb.config.writer.Allowed() && hr.kvdb.config.maxLevelCount > 0 && EventFits(ev)
    requires NamesLeft(hr.kvdb.db.lm) && Room(Held(hr.kvdb.db) + multiset(AddedBy(KvOperation(ev))),
             hr.kvdb.config.writer)
    requires ev.Reopened? ==> IsListing(hr.kvdb.db, ev.listing) && Opens(ev.config)
    modifies hr.kvdb, hr.kvdb.buffer, hr.kvdb.levelManager
    ensures next.Valid() && next.kvdb.config == if ev.Reopened? then Reducing(ev.config) else hr.kvdb.config
    ensures next.kvdb.db == Performed(old(hr.kvdb.db), ConfigOf(hr.kvdb.config), KvOperation(ev))
    ensures next == hr || (fresh(next) && fresh(next.kvdb) && fresh(next.kvdb.buffer) && fresh(next.kvdb.levelManager))
  {
    hide KvDb.Valid, Room, Held, NamesLeft, IsListing, Add, Database.Flush, Database.Compact, Reopen, EntryOf;
    hide LeftBehind, Loadable, LoadedState, ReadersOf;
    next := hr;
    assert Held(hr.kvdb.db) + multiset([]) == Held(hr.kvdb.db);
    if ev.Reopened? {
      LeavesBehind(hr.kvdb, ev.listing);
      var found := Some(Directory(NamesOf(ev.listing), hr.kvdb.disk));
      LeftBehindLoads(found.value, hr.kvdb.db, hr.kvdb.readers, hr.kvdb.cfgs);
      var r := HrDb.Open(ev.config, OpenFlags(false, false, true), found, hr.kvdb.db, hr.kvdb.readers, hr.kvdb.cfgs);
      next := r.value;
    } else if ev.op.HrAdd? {
      OneEntry(ev.op.box, ev.op.value);
      var e := EntryOf(ev.op.box, ev.op.value);
      assert multiset([e]) == multiset{e};
      hr.AddBox(ev.op.box, ev.op.value);
    } else if ev.op.HrFlush? {
      hr.Flush();
    } else {
      hr.Compact();
    }
  }

  lemma ReopensAlike(config: KvConfig, evs: seq<HrEvent>, n: nat)
    requires n < |evs| && EventFits(evs[n]) && forall i :: 0 <= i < |evs| ==> EventFits(evs[i])
    ensures evs[n].Reopened? <==> OpsOf(evs)[n].ReopenOp?
    ensures evs[n].Reopened? ==>
              && OpsOf(evs)[n].listing == evs[n].listing
              && forall before :: ConfigBy(before, OpsOf(evs)[n], WritersOf(config, evs)[n]) == Reducing(evs[n].config)
    ensures !evs[n].Reopened? ==> forall before :: ConfigBy(before, OpsOf(evs)[n], WritersOf(config, evs)[n]) == before
  {
  }

  /** Any run of boxes that fits can be performed on the object. */
  method DriveBoxes(config: KvConfig, evs: seq<HrEvent>) returns (hr: HrDb)
    requires EventsFit(config, evs)
    ensures fresh(hr) && fresh(hr.kvdb) && fresh(hr.kvdb.buffer) && fresh(hr.kvdb.levelManager) && hr.Valid()
    ensures config.maxLevelCount > 0 && hr.kvdb.db == HrRun(ConfigOf(config), evs).kv.db
  {
    hide KvDb.Valid, RunFits, Room, Held, NamesLeft, IsListing, Run, HrRun, Performed, EventsFit, KvOperation;
    hide Reconfigured, ConfigBy;
    EventsReady(config, evs);
    ghost var cfg, ops, writers := ConfigOf(config), OpsOf(evs), WritersOf(config, evs);
    var r := HrDb.Open(config, OpenFlags(false, false, true), None, EMPTY, [], map[]);
    hr := r.value;
    assert ops[..0] == [] && writers[..0] == [];
    RunNothing(Reducing(config));
    for n := 0 to |evs|
      invariant fresh(hr) && fresh(hr.kvdb) && fresh(hr.kvdb.buffer) && fresh(hr.kvdb.levelManager) && hr.Valid()
      invariant hr.kvdb.config == Reconfigured(Reducing(config), ops[..n], writers[..n])
                && hr.kvdb.db == Run(cfg, ops[..n]).db
    {
      RunReady(Reducing(config), ops, writers, n, BOX_SIZE);
      RunStep(cfg, ops, n);
      ConfigStep(Reducing(config), ops, writers, n);
      ReopensAlike(config, evs, n);
      hr := PerformEvent(hr, evs[n]);
    }
    assert ops[..|ops|] == ops;
    RunOfEvents(cfg, evs);
  }

  /** Performing the run on the object and searching finds exactly what brute force finds among the flushed boxes; after
      a run of points these are the values of the points inside the query. */
  method SearchRun(config: KvConfig, evs: seq<HrEvent>, query: Box) returns (values: seq<Bytes>)
    requires EventsFit(config, evs)
    ensures config.maxLevelCount > 0 && multiset(values) ==
            multiset(BruteForce(HrRun(ConfigOf(config), evs).flushed, query))
    ensures AddsPoints(evs) ==> multiset(values) == multiset(ValuesInside(HrRun(ConfigOf(config), evs).flushed, query))
  {
    hide KvDb.Valid, HrRun, Found, BruteForce, Contents, ValuesInside, AddsPoints;
    var hr := DriveBoxes(config, evs);
    values := hr.Search(query);
    EventsWellFormed(config, evs);
    SearchFlushed(ConfigOf(config), evs, query);
    if AddsPoints(evs) {
      SearchPoints(ConfigOf(config), evs, query);
    }
  }

  lemma EventsWellFormed(config: KvConfig, evs: seq<HrEvent>)
    requires EventsFit(config, evs)
    ensures config.maxLevelCount > 0 && HrWellFormed(ConfigOf(config), evs)
  {
  }
}
