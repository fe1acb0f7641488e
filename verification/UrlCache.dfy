/** The cache module as the program runs it: files, module-level counters and loops that update them.
    Every method is proved against the functions of CacheStore. */
module UrlCache {
  import opened Ordering
  import opened Eviction
  import opened CacheModel
  import opened CacheStore
  import opened CacheMigration
  import opened LfuScore

  class CacheModule {
    var disk: map<Path, seq<Entry>>
    var evictionsTotal: nat
    var evictionsSession: nat
    var evictionsLru: nat
    var evictionsLfu: nat
    /** Printed length of one entry; the size of a file holding these entries (it may be gzipped). */
    const width: Entry -> nat
    const fileSize: seq<Entry> -> nat

    constructor (width: Entry -> nat, fileSize: seq<Entry> -> nat)
      ensures State() == Store(map[], 0, 0, 0, 0)
      ensures this.width == width && this.fileSize == fileSize
    {
      disk := map[];
      evictionsTotal, evictionsSession, evictionsLru, evictionsLfu := 0, 0, 0, 0;
      this.width := width;
      this.fileSize := fileSize;
    }

    ghost function State(): Store
      reads this
    {
      Store(disk, evictionsTotal, evictionsSession, evictionsLru, evictionsLfu)
    }

    /** One eviction, as the module globals count it. */
    method CountEviction(strategy: Strategy)
      modifies this`evictionsTotal, this`evictionsSession, this`evictionsLru, this`evictionsLfu
      ensures State() == Count(old(State()), 1, strategy)
    {
      evictionsTotal := evictionsTotal + 1;
      evictionsSession := evictionsSession + 1;
      if strategy.Lru? {
        evictionsLru := evictionsLru + 1;
      } else {
        evictionsLfu := evictionsLfu + 1;
      }
    }

    /** `_save_cache`; `left` is the dict as the caller sees it afterwards. */
    method SaveCache(path: Path, entries: seq<Entry>, caps: Caps, strategy: Strategy) returns (left: seq<Entry>)
      modifies this
      ensures left == EvictCache(entries, width, caps, strategy)
      ensures State() == CacheStore.SaveCache(old(State()), path, entries, width, caps, strategy)
    {
      left := EvictWhileOver(entries, caps, strategy);
      disk := disk[path := OnDisk(left)];
    }

    /** The loop of `_save_cache`. */
    method EvictWhileOver(entries: seq<Entry>, caps: Caps, strategy: Strategy) returns (left: seq<Entry>)
      modifies this`evictionsTotal, this`evictionsSession, this`evictionsLru, this`evictionsLfu
      ensures left == EvictCache(entries, width, caps, strategy)
      ensures State() == Count(old(State()), |entries| - |left|, strategy)
    {
      left := entries;
      var size := PrintedSize(left, width);
      ByKeyIsPreorder(EvictKey(strategy));
      while (size > caps.maxBytes || |left| > caps.maxEntries) && left != []
        invariant |left| <= |entries|
        invariant size == PrintedSize(left, width)
        invariant State() == Count(old(State()), |entries| - |left|, strategy)
        invariant EvictCache(left, width, caps, strategy) == EvictCache(entries, width, caps, strategy)
        decreases |left|
      {
        var victim := SelectMin(left, EvictOrder(strategy));
        EvictOne(left, caps, strategy, victim);
        left := RemoveAt(left, victim);
        CountEviction(strategy);
        size := PrintedSize(left, width);
      }
    }

    lemma EvictOne(left: seq<Entry>, caps: Caps, strategy: Strategy, victim: nat)
      requires left != [] && Over(width, caps)(left) && victim == FirstMin(left, EvictOrder(strategy))
      ensures EvictCache(RemoveAt(left, victim), width, caps, strategy) == EvictCache(left, width, caps, strategy)
    {
      EvictStep(left, EvictOrder(strategy), Over(width, caps));
    }

    /** `save_cache_with_lfu`: same loop, composite key, no counters. With `decay_seconds` zero the first
        key that is needed raises a ZeroDivisionError, before anything is deleted. */
    method SaveCacheWithLfu(path: Path, entries: seq<Entry>, caps: Caps, cfg: LfuConfig, clock: Clock)
      returns (left: seq<Entry>, raised: bool)
      modifies this`disk
      ensures raised <==> cfg.decaySeconds == 0.0 && entries != [] && Over(width, caps)(entries)
      ensures left == if cfg.decaySeconds == 0.0 then entries else EvictWithLfu(entries, width, caps, cfg, clock)
      ensures disk == if raised then old(disk) else old(disk)[path := OnDisk(left)]
    {
      left, raised := entries, false;
      var size := PrintedSize(left, width);
      if cfg.decaySeconds == 0.0 {
        if (size > caps.maxBytes || |left| > caps.maxEntries) && left != [] {
          return left, true;
        }
        disk := disk[path := OnDisk(left)];
        return;
      }
      ghost var le := (n: nat) => LfuOrder(cfg, clock, n);
      var pass: nat := 0;
      while (size > caps.maxBytes || |left| > caps.maxEntries) && left != []
        invariant disk == old(disk)
        invariant size == PrintedSize(left, width)
        invariant EvictClocked(left, le, Over(width, caps), pass) == EvictClocked(entries, le, Over(width, caps), 0)
        decreases |left|
      {
        ByKeyIsPreorder(LfuKey(cfg, clock, pass));
        var victim := SelectMin(left, LfuOrder(cfg, clock, pass));
        left := RemoveAt(left, victim);
        pass := pass + 1;
        size := PrintedSize(left, width);
      }
      disk := disk[path := OnDisk(left)];
    }

    /** `save_cache_lfu_decay_full`: scores up front, then a loop on the count cap, then one on the size cap.
        With `decay_seconds` zero the first score raises a ZeroDivisionError. */
    method SaveCacheLfuDecayFull(path: Path, entries: seq<Entry>, caps: Caps, cfg: LfuConfig, decay: Decay, now: real)
      returns (left: seq<Entry>, scores: map<string, real>, raised: bool)
      modifies this`disk
      ensures raised <==> decay.halfLife > 0.0 && cfg.decaySeconds == 0.0 && entries != []
      ensures !raised ==> forall e :: e in entries ==> e.url in scores
      ensures !raised && DistinctUrls(entries) ==>
                forall e :: e in entries ==> scores[e.url] == DecayScore(e.accessCount, now - e.timestamp, cfg, decay)
      ensures left == if raised then entries else EvictTwoPhase(entries, width, caps, scores)
      ensures disk == if raised then old(disk) else old(disk)[path := OnDisk(left)]
    {
      left, scores, raised := entries, map[], false;
      if entries != [] {
        if decay.halfLife > 0.0 && cfg.decaySeconds == 0.0 {
          return left, scores, true;
        }
        scores := ScoreEntries(entries, (e: Entry) => DecayScore(e.accessCount, now - e.timestamp, cfg, decay));
      }
      left := EvictByCount(entries, caps.maxEntries, scores);
      left := EvictByBytes(left, width, caps.maxBytes, scores);
      disk := disk[path := OnDisk(left)];
    }

    static method EvictByCount(entries: seq<Entry>, maxEntries: int, scores: map<string, real>)
      returns (left: seq<Entry>)
      ensures left == Evict(entries, ScoreOrder(scores), OverCount(maxEntries))
    {
      ByKeyIsPreorder(ScoreKey(scores));
      left := entries;
      while left != [] && |left| > maxEntries
        invariant Evict(left, ScoreOrder(scores), OverCount(maxEntries))
               == Evict(entries, ScoreOrder(scores), OverCount(maxEntries))
        decreases |left|
      {
        var victim := SelectMin(left, ScoreOrder(scores));
        EvictStep(left, ScoreOrder(scores), OverCount(maxEntries));
        left := RemoveAt(left, victim);
      }
    }

    static method EvictByBytes(entries: seq<Entry>, width: Entry -> nat, maxBytes: int, scores: map<string, real>)
      returns (left: seq<Entry>)
      ensures left == Evict(entries, ScoreOrder(scores), OverBytes(width, maxBytes))
    {
      ByKeyIsPreorder(ScoreKey(scores));
      left := entries;
      var size := PrintedSize(left, width);
      while size > maxBytes && left != []
        invariant size == PrintedSize(left, width)
        invariant Evict(left, ScoreOrder(scores), OverBytes(width, maxBytes))
               == Evict(entries, ScoreOrder(scores), OverBytes(width, maxBytes))
        decreases |left|
      {
        var victim := SelectMin(left, ScoreOrder(scores));
        EvictStep(left, ScoreOrder(scores), OverBytes(width, maxBytes));
        left := RemoveAt(left, victim);
        size := PrintedSize(left, width);
      }
    }

    static method ScoreEntries(entries: seq<Entry>, score: Entry -> real) returns (scores: map<string, real>)
      ensures forall e :: e in entries ==> e.url in scores
      ensures DistinctUrls(entries) ==> forall e :: e in entries ==> scores[e.url] == score(e)
    {
      scores := map[];
      for i := 0 to |entries|
        invariant forall k :: 0 <= k < i ==> entries[k].url in scores
        invariant DistinctUrls(entries) ==> forall k :: 0 <= k < i ==> scores[entries[k].url] == score(entries[k])
      {
        scores := scores[entries[i].url := score(entries[i])];
      }
    }

    method CheckUrlWithCache(q: Request) returns (issues: seq<Issue>)
      modifies this
      ensures State() == Check(old(State()), q, width)
      ensures issues == Answer(Load(old(State()), q.path), q)
      ensures DistinctUrls(Load(old(State()), q.path)) ==>
                var cache := Load(old(State()), q.path);
                && (forall e :: e in cache && e.url == q.url && q.lookupTime - e.timestamp <= q.ttl as real ==>
                      issues == e.issues)
                && ((forall e :: e in cache && e.url == q.url ==> q.lookupTime - e.timestamp > q.ttl as real) ==>
                      issues == q.online)
    {
      var cache := if q.path in disk then disk[q.path] else [];
      var i := Find(cache, q.url);
      var entry: Entry;
      if i != -1 && !(q.lookupTime - cache[i].timestamp > q.ttl as real) {
        issues := cache[i].issues;
        entry := cache[i].(accessCount := cache[i].accessCount + 1);
      } else {
        issues := q.online;
        entry := Entry(q.url, q.fetchTime, issues, 0);
      }
      assert entry == Written(cache, q) && issues == Answer(cache, q);
      if DistinctUrls(cache) {
        forall e | e in cache && e.url == q.url && q.lookupTime - e.timestamp <= q.ttl as real
          ensures issues == e.issues
        {
          FreshEntryAnswers(cache, q, e);
        }
        if forall e :: e in cache && e.url == q.url ==> q.lookupTime - e.timestamp > q.ttl as real {
          StaleEntryIsFetchedAnew(cache, q);
        }
      }
      var _ := SaveCache(q.path, Put(cache, entry), q.caps, q.strategy);
    }

    method CacheClear(path: Path)
      modifies this
      ensures State() == Clear(old(State()), path)
    {
      if path in disk {
        disk := disk - {path};
      } else {
        assert disk - {path} == disk;
      }
    }

    /** The loop that collects `to_remove`, seen from the entries it leaves. */
    static method KeepUnpruned(entries: seq<Entry>, a: PruneArgs) returns (left: seq<Entry>)
      ensures left == Unpruned(entries, a)
    {
      left := [];
      for i := 0 to |entries|
        invariant left + Unpruned(entries[i..], a) == Unpruned(entries, a)
      {
        UnprunedStep(entries, i, a);
        if !Prunable(entries[i], a) {
          left := left + [entries[i]];
        }
      }
    }

    /** One file of `cache_prune`. */
    method PruneOne(path: Path, a: PruneArgs) returns (report: PruneReport)
      modifies this
      ensures State() == PruneFile(old(State()), path, a, width)
      ensures report == ReportFile(old(State()), path, a, width)
    {
      if path !in disk {
        return PruneReport(0, 0, 0, a.dryRun);
      }
      var entries := disk[path];
      var left := KeepUnpruned(entries, a);
      var removed := |entries| - |left|;
      var len := |entries|;
      if !a.dryRun && removed != 0 {
        var after := SaveCache(path, left, DEFAULT_CAPS, Mixed);
        len := |after|;
      }
      report := PruneReport(removed, len - removed, len, a.dryRun);
    }

    method CachePrune(base: Path, a: PruneArgs) returns (reports: map<Strategy, PruneReport>, overall: PruneTotal)
      modifies this
      ensures State() == Prune(old(State()), base, a, width)
      ensures reports == PruneReports(old(State()), base, a, width)
      ensures overall.dryRun == a.dryRun
      ensures !a.dryRun ==> EntryCount(State(), base) <= EntryCount(old(State()), base) - overall.totalRemoved
      ensures overall.totalRemoved == reports[Lru].removed + reports[Lfu].removed + reports[Mixed].removed
    {
      var lru := PruneOne(CacheFileForStrategy(base, Lru), a);
      var lfu := PruneOne(CacheFileForStrategy(base, Lfu), a);
      var mixed := PruneOne(CacheFileForStrategy(base, Mixed), a);
      reports := map[Lru := lru, Lfu := lfu, Mixed := mixed];
      overall := PruneTotal(lru.removed + lfu.removed + mixed.removed, a.dryRun);
      PruneAccounts(old(State()), base, a, width);
    }

    /** `evict_lru_over_size` and `evict_lfu_over_size`. */
    method EvictOverSize(base: Path, strategy: Strategy, maxBytes: int) returns (evicted: nat, keyError: bool)
      modifies this
      ensures PopResult(State(), evicted, keyError)
           == CacheStore.EvictOverSize(old(State()), base, strategy, maxBytes, width, fileSize)
    {
      var path := CacheFileForStrategy(base, strategy);
      evicted, keyError := 0, false;
      var cache := if path in disk then disk[path] else [];
      var queue := Sort(cache, PopOrder(strategy));
      while queue != [] && path in disk && fileSize(disk[path]) > maxBytes
        invariant PopLoop(State(), path, cache, queue, maxBytes, width, fileSize, evicted)
               == CacheStore.EvictOverSize(old(State()), base, strategy, maxBytes, width, fileSize)
        invariant !keyError
        decreases |queue|
      {
        var i := Find(cache, queue[0].url);
        if i == -1 {
          keyError := true;
          return;
        }
        queue := queue[1..];
        cache := RemoveAt(cache, i);
        evicted := evicted + 1;
        cache := SaveCache(path, cache, DEFAULT_CAPS, Mixed);
      }
    }

    /** The loop of `split_to_per_strategy` that fills the two dicts. */
    static method Partition(entries: seq<Entry>, threshold: int) returns (lru: seq<Entry>, lfu: seq<Entry>)
      ensures lru == Part(entries, threshold, false) && lfu == Part(entries, threshold, true)
    {
      lru, lfu := [], [];
      for i := 0 to |entries|
        invariant lru + Part(entries[i..], threshold, false) == Part(entries, threshold, false)
        invariant lfu + Part(entries[i..], threshold, true) == Part(entries, threshold, true)
      {
        PartStep(entries, i, threshold, false);
        PartStep(entries, i, threshold, true);
        if entries[i].accessCount >= threshold {
          lfu := lfu + [entries[i]];
        } else {
          lru := lru + [entries[i]];
        }
      }
    }

    /** The counts are taken after each save has evicted from its dict. */
    method SplitToPerStrategy(base: Path, threshold: int) returns (report: SplitReport)
      modifies this
      ensures State() == Split(old(State()), base, threshold, width)
      ensures report.split <==> Load(old(State()), CacheFileForStrategy(base, Mixed)) != []
      ensures !report.split ==> report.lru == report.lfu == 0
      ensures report.split ==>
                var s := Load(old(State()), CacheFileForStrategy(base, Mixed));
                && report.lru == |EvictCache(Part(s, threshold, false), width, DEFAULT_CAPS, Mixed)|
                && report.lfu == |EvictCache(Part(s, threshold, true), width, DEFAULT_CAPS, Mixed)|
                && (!Over(width, DEFAULT_CAPS)(s) ==> report.lru + report.lfu == |s|)
    {
      var mixed := CacheFileForStrategy(base, Mixed);
      var entries := if mixed in disk then disk[mixed] else [];
      if entries == [] {
        return SplitReport(false, 0, 0);
      }
      var lru, lfu := Partition(entries, threshold);
      if lru != [] {
        lru := SaveCache(CacheFileForStrategy(base, Lru), lru, DEFAULT_CAPS, Mixed);
      }
      if lfu != [] {
        lfu := SaveCache(CacheFileForStrategy(base, Lfu), lfu, DEFAULT_CAPS, Mixed);
      }
      SplitCounts(entries, threshold, width);
      report := SplitReport(true, |lru|, |lfu|);
    }

    /** The counts of the sources are those loaded, the total is what the save left. */
    method MergePerStrategyToMixed(base: Path, deleteSources: bool) returns (report: MergeReport)
      modifies this
      ensures State() == Merge(old(State()), base, deleteSources, width)
      ensures report.lru == |Load(old(State()), CacheFileForStrategy(base, Lru))|
      ensures report.lfu == |Load(old(State()), CacheFileForStrategy(base, Lfu))|
      ensures report.merged <==> report.lru + report.lfu > 0
      ensures report.total == if report.merged then |Load(State(), CacheFileForStrategy(base, Mixed))| else 0
    {
      var lruFile, lfuFile := CacheFileForStrategy(base, Lru), CacheFileForStrategy(base, Lfu);
      var lru := if lruFile in disk then disk[lruFile] else [];
      var lfu := if lfuFile in disk then disk[lfuFile] else [];
      if lru == [] && lfu == [] {
        return MergeReport(false, 0, 0, 0);
      }
      var merged := lru;
      for i := 0 to |lfu|
        invariant State() == old(State())
        invariant Update(merged, lfu[i..]) == Update(lru, lfu)
      {
        assert lfu[i..][1..] == lfu[i + 1..];
        merged := Put(merged, lfu[i]);
      }
      merged := SaveCache(CacheFileForStrategy(base, Mixed), merged, DEFAULT_CAPS, Mixed);
      report := MergeReport(true, |lru|, |lfu|, |merged|);
      if deleteSources {
        StrategyFilesDiffer(base, Mixed, Lru);
        StrategyFilesDiffer(base, Mixed, Lfu);
        disk := disk - {lruFile, lfuFile};
      }
    }

    method MigrateToPerStrategyCache(base: Path) returns (migrated: bool, count: nat)
      modifies this
      ensures State() == Migrate(old(State()), base)
      ensures count == if migrated then old(|Load(State(), base)|) else 0
      ensures migrated <==> old(base in disk && disk[base] != [] && forall s :: CacheFileForStrategy(base, s) !in disk)
    {
      var lru, lfu := CacheFileForStrategy(base, Lru), CacheFileForStrategy(base, Lfu);
      var mixed := CacheFileForStrategy(base, Mixed);
      if lru in disk || lfu in disk || mixed in disk || base !in disk || disk[base] == [] {
        return false, 0;
      }
      count := |disk[base]|;
      disk := disk[mixed := OnDisk(disk[base])];
      disk := disk - {base};
      migrated := true;
    }
  }

  lemma PartStep(s: seq<Entry>, i: nat, threshold: int, frequent: bool)
    requires i < |s|
    ensures Part(s[i..], threshold, frequent)
         == (if (s[i].accessCount >= threshold) == frequent then [s[i]] else []) + Part(s[i + 1..], threshold, frequent)
  {
    assert s[i..][1..] == s[i + 1..];
  }

  lemma UnprunedStep(s: seq<Entry>, i: nat, a: PruneArgs)
    requires i < |s|
    ensures Unpruned(s[i..], a) == (if Prunable(s[i], a) then [] else [s[i]]) + Unpruned(s[i + 1..], a)
  {
    assert s[i..][1..] == s[i + 1..];
  }

  /** The `kept` that `cache_prune` reports is the number of entries that do not match the criteria
      exactly when the call was a dry run or removed nothing: a real run subtracts the removed entries
      a second time, because it measures the dict after deleting from it. What the save then evicts from
      a file outside the default caps is missing from `kept` as well. */
  lemma PruneReportHonestIff(st: Store, path: Path, a: PruneArgs, width: Entry -> nat)
    requires path in st.disk
    ensures var r := ReportFile(st, path, a, width);
            var left := Unpruned(st.disk[path], a);
            && r.removed == |st.disk[path]| - |left|
            && (r.kept == |left| <==> a.dryRun || r.removed == 0)
            && (!Over(width, DEFAULT_CAPS)(st.disk[path]) ==>
                  r.kept == if a.dryRun then |left| else |left| - r.removed)
  {
    var left := Unpruned(st.disk[path], a);
    UnprunedFits(st.disk[path], a, width);
    if !Over(width, DEFAULT_CAPS)(left) {
      EvictNothing(left, width, Mixed, DEFAULT_CAPS);
    }
  }

  lemma {:induction false} UnprunedFits(s: seq<Entry>, a: PruneArgs, width: Entry -> nat)
    ensures |Unpruned(s, a)| <= |s|
    ensures PrintedSize(Unpruned(s, a), width) <= PrintedSize(s, width)
  {
    if s != [] {
      UnprunedFits(s[1..], a, width);
      if !Prunable(s[0], a) {
        assert Unpruned(s, a)[1..] == Unpruned(s[1..], a);
        assert PrintedSize(Unpruned(s, a), width) == 2 + width(s[0]) + PrintedSize(Unpruned(s[1..], a), width);
      } else {
        assert Unpruned(s, a) == Unpruned(s[1..], a);
      }
    }
  }
}
