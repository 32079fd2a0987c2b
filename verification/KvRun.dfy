// The database object follows whole runs: what to check beforehand, and a driver.
module KvRuns {
  import opened Bytes
  import opened Entries
  import opened Packing
  import opened Structures
  import opened FileSizes
  import opened Buffering
  import opened FileNames
  import opened Levels
  import opened LevelManagement
  import opened Database
  import opened DbRuns
  import opened DbBounds
  import opened ReaderMaps
  import opened KvLinks
  import opened KvOpening
  import opened KvDatabase

  // ---- Room, from the number and size of all entries.

  lemma {:induction false} DataIsSize(es: seq<Entry>)
    ensures DataBytes(es) == DataSize(es)
  {
    if es != [] {
      DataIsSize(es[1..]);
      DataConcat([es[0]], es[1..]);
      assert es == [es[0]] + es[1..];
      DataOne(es[0]);
    }
  }

  lemma DataOne(e: Entry)
    ensures DataBytes([e]) == |e.key| + |e.value|
  {
    assert [e][..0] == [];
    assert EntryData([e]) == EntryData([e][..0]) + (e.key + e.value);
  }

  /** A part of the entries has at most their count and size. */
  lemma {:induction false} PartSize(xs: seq<Entry>, ys: seq<Entry>)
    requires multiset(xs) <= multiset(ys)
    ensures |xs| <= |ys| && DataSize(xs) <= DataSize(ys)
    decreases |xs|
  {
    if xs != [] {
      assert xs[0] in multiset(ys);
      var p :| 0 <= p < |ys| && ys[p] == xs[0];
      var rest := ys[..p] + ys[p + 1..];
      assert xs == [xs[0]] + xs[1..];
      OneLess(ys, p);
      assert multiset(xs[1..]) == multiset(xs) - multiset{xs[0]};
      PartSize(xs[1..], rest);
    }
  }

  lemma OneLess(es: seq<Entry>, p: nat)
    requires p < |es|
    ensures multiset(es[..p] + es[p + 1..]) == multiset(es) - multiset{es[p]}
    ensures DataSize(es) == DataSize(es[..p] + es[p + 1..]) + |es[p].key| + |es[p].value|
  {
    assert es == es[..p] + ([es[p]] + es[p + 1..]);
    assert multiset(es) == multiset(es[..p]) + multiset{es[p]} + multiset(es[p + 1..]);
    SizeConcat(es[..p], [es[p]] + es[p + 1..]);
    SizeConcat(es[..p], es[p + 1..]);
    assert ([es[p]] + es[p + 1..])[1..] == es[p + 1..];
  }

  lemma {:induction false} SizeConcat(a: seq<Entry>, b: seq<Entry>)
    ensures DataSize(a + b) == DataSize(a) + DataSize(b)
  {
    if a == [] {
      assert a + b == b;
    } else {
      assert (a + b)[1..] == a[1..] + b;
      SizeConcat(a[1..], b);
    }
  }

  /** A size below 2^64 in the closed form leaves room for every file that could be formed from part of the entries. */
  lemma RoomBySize(held: multiset<Entry>, all: seq<Entry>, cfg: WriterConfig, limit: nat)
    requires cfg.Allowed() && ReducesTo(cfg, limit) && held <= multiset(all)
    requires SizeBound(|all|, DataSize(all), limit) < U64_LIMIT
    ensures Room(held, cfg)
  {
    hide Fits, DataSize, DataBytes, ReducesTo, SizeBound;
    assert |held| <= |multiset(all)| == |all| by { SubsetSize(held, multiset(all)); }
    BoundParts(|all|, DataSize(all), limit);
    forall es: seq<Entry>, start: nat | multiset(es) <= held && start + |es| <= |held| ensures Fits(es, cfg, start) {
      PartSize(es, all);
      DataIsSize(es);
      BoundGrows(|es|, DataSize(es), |all|, DataSize(all), limit);
      FitsBySize(es, cfg, start, limit);
    }
  }

  lemma SubsetSize<T>(a: multiset<T>, b: multiset<T>)
    requires a <= b
    ensures |a| <= |b|
  {
    assert b == a + (b - a);
  }

  lemma BoundParts(count: nat, bytes: nat, limit: nat)
    ensures SizeBound(count, bytes, limit) >= 224 * count + 42
  {
    assert count * (224 + 3 * limit) == 224 * count + count * (3 * limit);
  }

  lemma BoundGrows(n: nat, d: nat, m: nat, e: nat, limit: nat)
    requires n <= m && d <= e
    ensures SizeBound(n, d, limit) <= SizeBound(m, e, limit)
  {
    Grouping.Monotone(n, m, 224 + 3 * limit);
  }

  // ---- The history never holds more than was added.

  lemma {:induction false} HistoryWithin(cfg: Config, ops: seq<Operation>)
    requires cfg.maxLevelCount > 0
    ensures multiset(Run(cfg, ops).flushed) + multiset(Run(cfg, ops).pending) <= multiset(Adds(ops))
  {
    hide Add, Flush, Compact, Reopen, DataSize;
    if ops != [] {
      var front, op := ops[..|ops| - 1], ops[|ops| - 1];
      HistoryWithin(cfg, front);
      var t := Run(cfg, front);
      assert op.AddOp? ==>
          var e := Entry(op.key, op.value);
          multiset(t.flushed + (t.pending + [e])) == multiset(t.flushed) + multiset(t.pending) + multiset{e};
      assert multiset(t.flushed + t.pending) == multiset(t.flushed) + multiset(t.pending);
    }
  }

  lemma {:induction false} AddsPrefix(ops: seq<Operation>, n: nat)
    requires n <= |ops|
    ensures Adds(ops[..n]) <= Adds(ops)
    decreases |ops|
  {
    if n < |ops| {
      AddsPrefix(ops[..|ops| - 1], n);
      assert ops[..|ops| - 1][..n] == ops[..n];
    } else {
      assert ops[..n] == ops;
    }
  }

  lemma HeldIs(t: Tracked)
    requires Kept(t)
    ensures Held(t.db) == multiset(t.flushed) + multiset(t.pending)
  {
    hide Inv, Contents;
    BufferCounts(t);
  }

  // ---- Names, from the weights or from the length of the run.

  lemma ApplyLength(s: State, op: MergeOperation)
    ensures |Apply(s, op).levels| == if op.dst.level < |s.levels| then |s.levels| else op.dst.level + 1
  {
  }

  lemma FlushBufferCounters(db: Db)
    ensures |FlushBuffer(db).lm.levels| == |db.lm.levels| && FlushBuffer(db).lm.nextIndex <= db.lm.nextIndex + 1
  {
  }

  /** An operation uses up at most two indices and one level. */
  lemma FlushCounters(db: Db, cfg: Config)
    requires Inv(db) && cfg.maxLevelCount > 0
    ensures Flush(db, cfg).lm.nextIndex <= db.lm.nextIndex + 2 && |Flush(db, cfg).lm.levels| <= |db.lm.levels| + 1
    ensures Compact(db).lm.nextIndex <= db.lm.nextIndex + 2 && |Compact(db).lm.levels| <= |db.lm.levels| + 1
  {
    hide Inv, FlushBuffer, Cascade, FullMerge, Apply, Consistent;
    var mid := FlushBuffer(db);
    FlushBufferKeeps(db);
    InvSorted(mid);
    FlushBufferCounters(db);
    if Cascade(mid.lm.levels, cfg.maxLevelCount).Some? {
      CascadeFacts(mid.lm, cfg.maxLevelCount);
      ApplyCounters(mid.lm, Cascade(mid.lm.levels, cfg.maxLevelCount).value);
      ApplyLength(mid.lm, Cascade(mid.lm.levels, cfg.maxLevelCount).value);
    }
    if FullMerge(mid.lm.levels).Some? {
      FullMergeFacts(mid.lm);
      ApplyCounters(mid.lm, FullMerge(mid.lm.levels).value);
      ApplyLength(mid.lm, FullMerge(mid.lm.levels).value);
    }
  }

  lemma StepCounters(t: Tracked, cfg: Config, op: Operation)
    requires cfg.maxLevelCount > 0 && Inv(t.db) && (op.ReopenOp? ==> IsListing(t.db, op.listing))
    ensures var after := Step(t, cfg, op).db.lm;
            after.nextIndex <= t.db.lm.nextIndex + 2 && |after.levels| <= |t.db.lm.levels| + 1
  {
    hide Inv, Flush, Compact, Reopen, IsListing, InsertLast;
    match op {
      case AddOp(k, v) =>
        InsertedInv(t.db, Entry(k, v));
        FlushCounters(t.db.(buffer := InsertLast(t.db.buffer, Entry(k, v))), cfg);
      case FlushOp => FlushCounters(t.db, cfg);
      case CompactOp => FlushCounters(t.db, cfg);
      case ReopenOp(listing, _) => ReopenIsIdentity(t.db, listing);
    }
  }

  lemma {:induction false} RunCounters(cfg: Config, ops: seq<Operation>)
    requires cfg.maxLevelCount > 0 && Listings(cfg, ops) && Countable(ops)
    ensures Run(cfg, ops).db.lm.nextIndex <= 2 * |ops| && |Run(cfg, ops).db.lm.levels| <= |ops| + 1
  {
    if ops != [] {
      hide Kept, Step, IsListing, Listings, Adds, ConfigAfter;
      var front := ops[..|ops| - 1];
      RunPrefix(cfg, ops);
      RunCounters(cfg, front);
      RunKeeps(cfg, front);
      KeptInv(Run(cfg, front));
      StepCounters(Run(cfg, front), ConfigAfter(cfg, front), ops[|ops| - 1]);
    }
  }

  /** The level limits never go below two, or the run is shorter than 10^8 operations. */
  ghost predicate NamesLast(cfg: Config, ops: seq<Operation>) {
    LimitsAtLeast(cfg, ops, 2) || |ops| + 1 < 99_999_999
  }

  lemma WeightyNames(db: Db)
    requires Inv(db) && Weighty(db) && 2 * |Contents(db)| + 1 < U64_LIMIT
    ensures NamesLeft(db.lm)
  {
    hide Contiguous, Increasing;
    var levels, order := db.lm.levels, Order(db.lm.levels, 0);
    Pow2Bytes(8);
    Limits();
    if order == [] {
    } else {
      TopFile(db, order);
      if |levels| - 1 >= 64 {
        Pow2Grows(64, |levels| - 1);
      }
    }
  }

  lemma NamesOverRun(cfg: Config, ops: seq<Operation>)
    requires cfg.maxLevelCount > 0 && Listings(cfg, ops) && 2 * |Adds(ops)| + 1 < U64_LIMIT && NamesLast(cfg, ops)
    ensures NamesLeft(Run(cfg, ops).db.lm)
  {
    hide Kept, Inv, Weighty, Contents, Bounded, Run, Listings, LimitsAtLeast;
    RunKeeps(cfg, ops);
    var t := Run(cfg, ops);
    KeptInv(t);
    if LimitsAtLeast(cfg, ops, 2) {
      RunWeighty(cfg, ops);
      HistoryCount(cfg, ops);
      BufferCounts(t);
      WeightyNames(t.db);
    } else {
      RunCounters(cfg, ops);
    }
  }

  // ---- The driver.

  /** The writer configuration in force after a run; `writers[n]` is the one a reopening at `n` brings. */
  function WriterAfter(writer: WriterConfig, ops: seq<Operation>, writers: seq<WriterConfig>): WriterConfig
    requires |writers| == |ops|
  {
    if ops == [] then writer
    else if ops[|ops| - 1].ReopenOp? then writers[|ops| - 1]
    else WriterAfter(writer, ops[..|ops| - 1], writers[..|ops| - 1])
  }

  /** The whole configuration after a run. */
  function Reconfigured(config: KvConfig, ops: seq<Operation>, writers: seq<WriterConfig>): KvConfig
    requires config.maxLevelCount > 0 && |writers| == |ops|
  {
    var c := ConfigAfter(ConfigOf(config), ops);
    KvConfig(c.maxBufferSize, c.maxLevelCount, WriterAfter(config.writer, ops, writers))
  }

  /** What a caller can check before a run: names last, and all additions together stay within the closed form. */
  ghost predicate RunFits(config: KvConfig, ops: seq<Operation>, writers: seq<WriterConfig>, limit: nat)
    requires config.maxLevelCount > 0
  {
    && config.writer.Allowed() && ReducesTo(config.writer, limit)
    && |writers| == |ops| && (forall n :: 0 <= n < |writers| ==> writers[n].Allowed() && ReducesTo(writers[n], limit))
    && Listings(ConfigOf(config), ops) && NamesLast(ConfigOf(config), ops)
    && SizeBound(|Adds(ops)|, DataSize(Adds(ops)), limit) < U64_LIMIT
  }

  /** What one operation does to the state machine. */
  function Performed(db: Db, cfg: Config, op: Operation): Db
    requires cfg.maxLevelCount > 0
  {
    match op
    case AddOp(k, v) => Add(db, cfg, Entry(k, v))
    case FlushOp => Flush(db, cfg)
    case CompactOp => Compact(db)
    case ReopenOp(listing, _) => Reopen(db, listing)
  }

  lemma RunStep(cfg: Config, ops: seq<Operation>, n: nat)
    requires cfg.maxLevelCount > 0 && n < |ops|
    ensures Run(cfg, ops[..n + 1]).db == Performed(Run(cfg, ops[..n]).db, ConfigAfter(cfg, ops[..n]), ops[n])
  {
    hide Add, Flush, Compact, Reopen, DataSize, InsertLast;
    assert ops[..n + 1][..n] == ops[..n];
  }

  /** The entries an operation adds. */
  function AddedBy(op: Operation): seq<Entry> {
    if op.AddOp? then [Entry(op.key, op.value)] else []
  }

  lemma {:induction false} WriterFits(config: KvConfig, ops: seq<Operation>, writers: seq<WriterConfig>, limit: nat)
    requires config.writer.Allowed() && ReducesTo(config.writer, limit)
    requires |writers| == |ops| && forall n :: 0 <= n < |writers| ==>
             writers[n].Allowed() && ReducesTo(writers[n], limit)
    ensures var writer := WriterAfter(config.writer, ops, writers);
            writer.Allowed() && ReducesTo(writer, limit) && (writer == config.writer || writer in writers)
  {
    hide ReducesTo;
    if ops != [] {
      WriterFits(config, ops[..|ops| - 1], writers[..|ops| - 1], limit);
    }
  }

  /** One more operation changes the configuration only if it reopens. */
  lemma ConfigStep(config: KvConfig, ops: seq<Operation>, writers: seq<WriterConfig>, n: nat)
    requires config.maxLevelCount > 0 && |writers| == |ops| && n < |ops|
    ensures var now := Reconfigured(config, ops[..n], writers[..n]);
            && ConfigOf(now) == ConfigAfter(ConfigOf(config), ops[..n])
            && Reconfigured(config, ops[..n + 1], writers[..n + 1]) == ConfigBy(now, ops[n], writers[n])
  {
    assert ops[..n + 1][..n] == ops[..n] && writers[..n + 1][..n] == writers[..n];
  }

  function ConfigBy(config: KvConfig, op: Operation, writer: WriterConfig): KvConfig {
    if op.ReopenOp? then KvConfig(op.config.maxBufferSize, op.config.maxLevelCount, writer) else config
  }

  /** At every point of such a run the next operation finds room and names. */
  lemma RunReady(config: KvConfig, ops: seq<Operation>, writers: seq<WriterConfig>, n: nat, limit: nat)
    requires config.maxLevelCount > 0 && RunFits(config, ops, writers, limit) && n < |ops|
    ensures var db, now := Run(ConfigOf(config), ops[..n]).db, Reconfigured(config, ops[..n], writers[..n]);
            && now.writer.Allowed() && now.maxLevelCount > 0 && writers[n].Allowed()
            && Inv(db) && NamesLeft(db.lm) && Room(Held(db) + multiset(AddedBy(ops[n])), now.writer)
            && (ops[n].ReopenOp? ==> IsListing(db, ops[n].listing))
  {
    hide Kept, Inv, Run, Room, ReducesTo, SizeBound, IsListing, Held, NamesLeft, ConfigAfter, WriterAfter;
    var cfg, front := ConfigOf(config), ops[..n];
    var t := Run(cfg, front);
    BoundParts(|Adds(ops)|, DataSize(Adds(ops)), limit);
    AddsPrefix(ops, n);
    AddsPrefix(ops, n + 1);
    FrontListings(cfg, ops, n);
    FrontNames(cfg, ops, n);
    RunKeeps(cfg, front);
    KeptInv(t);
    HeldIs(t);
    NamesOverRun(cfg, front);
    HistoryWithin(cfg, front);
    assert ops[..n + 1][..n] == front;
    assert Adds(ops[..n + 1]) == Adds(front) + AddedBy(ops[n]);
    PrefixPart(Adds(ops[..n + 1]), Adds(ops));
    WriterFits(config, front, writers[..n], limit);
    RoomBySize(Held(t.db) + multiset(AddedBy(ops[n])), Adds(ops), WriterAfter(config.writer, front, writers[..n]),
        limit);
  }

  lemma FrontNames(cfg: Config, ops: seq<Operation>, n: nat)
    requires n <= |ops| && NamesLast(cfg, ops)
    ensures NamesLast(cfg, ops[..n])
  {
  }

  lemma PrefixPart(xs: seq<Entry>, ys: seq<Entry>)
    requires xs <= ys
    ensures multiset(xs) <= multiset(ys)
  {
    assert ys == xs + ys[|xs|..];
  }

  lemma FrontListings(cfg: Config, ops: seq<Operation>, n: nat)
    requires cfg.maxLevelCount > 0 && Listings(cfg, ops) && n < |ops|
    ensures Listings(cfg, ops[..n]) && (ops[n].ReopenOp? ==> IsListing(Run(cfg, ops[..n]).db, ops[n].listing))
  {
    hide Run, IsListing;
    assert forall m :: 0 <= m < n ==> ops[..n][..m] == ops[..m];
  }

  /** A listing of the files names the directory, and its names parse back to it. */
  lemma ListingNames(disk: map<string, Bytes>, m: ReaderMap, db: Db, cfgs: Configs, listing: seq<FileId>)
    requires Inv(db) && MapMatches(m, db.files, cfgs, Order(db.lm.levels, 0)) && DiskMatches(disk, m)
             && IsListing(db, listing)
    ensures IsDirectoryOf(NamesOf(listing), disk) && LeftBehind(Directory(NamesOf(listing), disk), db, m, cfgs)
  {
    hide MapMatches, DiskMatches, NameOf, Named, Consistent, Contiguous, Joined, Order, FileName, ParseFileName;
    var order, names := Order(db.lm.levels, 0), NamesOf(listing);
    MatchedIds(m, db.files, cfgs, order);
    forall i | 0 <= i < |listing| ensures names[i] in disk {
      assert listing[i] in listing && listing[i] in order;
      FileInDisk(disk, m, db.files, cfgs, order, listing[i]);
    }
    forall name | name in disk ensures name in names {
      NameOfFile(disk, m, db.files, cfgs, order, name);
      var i :| 0 <= i < |listing| && listing[i] == ParsedId(name);
      assert names[i] == name;
    }
    forall i, j | 0 <= i < j < |names| ensures names[i] != names[j] {
      assert listing[i] in listing && listing[j] in listing;
      assert listing[i] in order && listing[j] in order;
      NamesInjective(listing[i], listing[j]);
    }
  }

  /** One operation on the object; reopening continues with a new object, and configuration, on the same directory. */
  method Perform(kv: KvDb, op: Operation, writer: WriterConfig) returns (next: KvDb)
    requires kv.Valid() && kv.config.writer.Allowed() && kv.config.maxLevelCount > 0 && writer.Allowed()
    requires NamesLeft(kv.db.lm) && Room(Held(kv.db) + multiset(AddedBy(op)), kv.config.writer)
    requires op.ReopenOp? ==> IsListing(kv.db, op.listing)
    modifies kv, kv.buffer, kv.levelManager
    ensures next.Valid() && next.db == Performed(old(kv.db), ConfigOf(kv.config), op)
    ensures next.config == ConfigBy(kv.config, op, writer)
    ensures WrittenWith(old(kv.cfgs), next.cfgs, kv.config.writer)
    ensures next == kv || (fresh(next) && fresh(next.buffer) && fresh(next.levelManager))
  {
    hide KvDb.Valid, Room, Held, NamesLeft, IsListing, Add, Flush, Compact, Reopen, LeftBehind, Loadable, LoadedState;
    hide ReadersOf;
    next := kv;
    assert Held(kv.db) + multiset([]) == Held(kv.db);
    if op.AddOp? {
      assert multiset([Entry(op.key, op.value)]) == multiset{Entry(op.key, op.value)};
      kv.Add(op.key, op.value);
    } else if op.FlushOp? {
      kv.Flush();
    } else if op.CompactOp? {
      kv.Compact();
    } else {
      LeavesBehind(kv, op.listing);
      var loaded := KvDb.Load(ConfigBy(kv.config, op, writer), Directory(NamesOf(op.listing), kv.disk), kv.db,
          kv.readers, kv.cfgs);
      next := loaded.value;
    }
  }

  lemma LeavesBehind(kv: KvDb, listing: seq<FileId>)
    requires kv.Valid() && IsListing(kv.db, listing)
    ensures LeftBehind(Directory(NamesOf(listing), kv.disk), kv.db, kv.readers, kv.cfgs)
    ensures kv.db.(buffer := []) == Reopen(kv.db, listing)
  {
    hide Inv, MapMatches, DiskMatches, IsListing, LeftBehind, Order;
    ListingNames(kv.disk, kv.readers, kv.db, kv.cfgs, listing);
    ReopenIsIdentity(kv.db, listing);
  }

  /** Any run that fits can be performed on the object, and leaves it in the state of the run. */
  method Drive(config: KvConfig, ops: seq<Operation>, writers: seq<WriterConfig>, ghost limit: nat) returns (kv: KvDb)
    requires config.maxLevelCount > 0 && RunFits(config, ops, writers, limit)
    ensures fresh(kv) && fresh(kv.buffer) && fresh(kv.levelManager) && kv.Valid()
    ensures kv.config == Reconfigured(config, ops, writers) && kv.db == Run(ConfigOf(config), ops).db
    ensures forall id :: id in kv.cfgs ==> kv.cfgs[id] == config.writer || kv.cfgs[id] in writers
  {
    hide KvDb.Valid, RunFits, Room, Held, NamesLeft, IsListing, Run, Performed, Reconfigured, ConfigBy, ConfigAfter;
    hide WriterAfter;
    RunFitsAllowed(config, ops, writers, limit);
    kv := new KvDb(config);
    assert ops[..0] == [] && writers[..0] == [];
    RunNothing(config);
    for n := 0 to |ops|
      invariant fresh(kv) && fresh(kv.buffer) && fresh(kv.levelManager) && kv.Valid()
      invariant kv.config == Reconfigured(config, ops[..n], writers[..n]) && kv.db == Run(ConfigOf(config), ops[..n]).db
      invariant forall id :: id in kv.cfgs ==> kv.cfgs[id] == config.writer || kv.cfgs[id] in writers
    {
      RunReady(config, ops, writers, n, limit);
      RunStep(ConfigOf(config), ops, n);
      ConfigStep(config, ops, writers, n);
      WriterKnown(config, ops, writers, n, limit);
      kv := Perform(kv, ops[n], writers[n]);
    }
    assert ops[..|ops|] == ops && writers[..|ops|] == writers;
  }

  lemma WriterKnown(config: KvConfig, ops: seq<Operation>, writers: seq<WriterConfig>, n: nat, limit: nat)
    requires config.maxLevelCount > 0 && RunFits(config, ops, writers, limit) && n < |ops|
    ensures var writer := Reconfigured(config, ops[..n], writers[..n]).writer;
            writer == config.writer || writer in writers
  {
    hide ReducesTo, Listings, SizeBound, WriterAfter;
    WriterFits(config, ops[..n], writers[..n], limit);
  }

  lemma RunFitsAllowed(config: KvConfig, ops: seq<Operation>, writers: seq<WriterConfig>, limit: nat)
    requires config.maxLevelCount > 0 && RunFits(config, ops, writers, limit)
    ensures config.writer.Allowed() && |writers| == |ops|
  {
  }

  lemma RunNothing(config: KvConfig)
    requires config.maxLevelCount > 0
    ensures Run(ConfigOf(config), []).db == EMPTY && Reconfigured(config, [], []) == config
  {
  }
}
