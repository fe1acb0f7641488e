/** Properties of every run of the cache: any sequence of cached checks, prunes, clears and over-size
    evictions, with any clocks, online results, caps and strategies, starting from no files. */
module CacheHistory {
  import opened Ordering
  import opened Eviction
  import opened CacheModel
  import opened CacheStore

  datatype Op =
    | DoCheck(q: Request)
    | DoPrune(base: Path, args: PruneArgs)
    | DoClear(path: Path)
    | DoEvict(base: Path, strategy: Strategy, maxBytes: int)

  /** What the model leaves open: printed entry widths and sizes of files on disk. */
  datatype Sizes = Sizes(width: Entry -> nat, fileSize: seq<Entry> -> nat)

  const INITIAL := Store(map[], 0, 0, 0, 0)

  function Step(st: Store, op: Op, z: Sizes): Store
  {
    match op
    case DoCheck(q) => Check(st, q, z.width)
    case DoPrune(base, args) => Prune(st, base, args, z.width)
    case DoClear(path) => Clear(st, path)
    case DoEvict(base, strategy, maxBytes) => EvictOverSize(st, base, strategy, maxBytes, z.width, z.fileSize).st
  }

  function After(ops: seq<Op>, z: Sizes): Store
  {
    if ops == [] then INITIAL else Step(After(ops[..|ops| - 1], z), ops[|ops| - 1], z)
  }

  predicate Asks(op: Op, path: Path, url: string)
  {
    op.DoCheck? && op.q.path == path && op.q.url == url
  }

  /** The last operation is a check of `url` in `path` that went online. */
  predicate EndsInMiss(ops: seq<Op>, path: Path, url: string, z: Sizes)
  {
    && ops != []
    && Asks(ops[|ops| - 1], path, url)
    && !IsHit(Load(After(ops[..|ops| - 1], z), path), ops[|ops| - 1].q)
  }

  /** Index of the latest fetch of `url` into `path`, or -1. */
  function LastFetch(ops: seq<Op>, path: Path, url: string, z: Sizes): (j: int)
    ensures -1 <= j < |ops|
    ensures j >= 0 ==> Asks(ops[j], path, url) && EndsInMiss(ops[..j + 1], path, url, z)
  {
    if ops == [] then -1
    else if EndsInMiss(ops, path, url, z) then
      assert ops[..|ops|] == ops;
      |ops| - 1
    else
      var j := LastFetch(ops[..|ops| - 1], path, url, z);
      assert ops[..|ops| - 1][..j + 1] == ops[..j + 1];
      j
  }

  /** Cache hits on `url` in `path` since that fetch. */
  function HitsSinceFetch(ops: seq<Op>, path: Path, url: string, z: Sizes): nat
  {
    if ops == [] || EndsInMiss(ops, path, url, z) then 0
    else (if Asks(ops[|ops| - 1], path, url) then 1 else 0) + HitsSinceFetch(ops[..|ops| - 1], path, url, z)
  }

  /** The stored entry is exactly what its last fetch recorded, with one count per hit since. */
  ghost predicate Accounted(e: Entry, ops: seq<Op>, path: Path, z: Sizes)
  {
    var j := LastFetch(ops, path, e.url, z);
    && j >= 0
    && e.timestamp == ops[j].q.fetchTime
    && e.issues == ops[j].q.online
    && e.accessCount == HitsSinceFetch(ops, path, e.url, z)
  }

  ghost predicate FileAccounted(s: seq<Entry>, ops: seq<Op>, path: Path, z: Sizes)
  {
    DistinctUrls(s) && forall e :: e in s ==> Accounted(e, ops, path, z)
  }

  // ----- saving, pruning and popping only remove entries

  lemma OnDiskWithin(s: seq<Entry>)
    ensures Within(OnDisk(s), s)
  {
    if DistinctUrls(s) {
      MultisetDistinct(s, OnDisk(s));
      forall e | e in OnDisk(s) ensures e in s { assert e in multiset(OnDisk(s)); }
    }
  }

  lemma {:induction false} UnprunedWithin(s: seq<Entry>, a: PruneArgs)
    ensures Within(Unpruned(s, a), s)
  {
    if s != [] {
      UnprunedWithin(s[1..], a);
      if DistinctUrls(s) {
        UnprunedTail(s, a);
      }
    }
  }

  lemma UnprunedTail(s: seq<Entry>, a: PruneArgs)
    requires s != [] && DistinctUrls(s) && Within(Unpruned(s[1..], a), s[1..])
    ensures DistinctUrls(Unpruned(s, a)) && forall e :: e in Unpruned(s, a) ==> e in s
  {
    var tail := Unpruned(s[1..], a);
    assert DistinctUrls(s[1..]);
    assert Unpruned(s, a) == (if Prunable(s[0], a) then [] else [s[0]]) + tail;
    forall i | 0 <= i < |tail| ensures tail[i].url != s[0].url {
      assert tail[i] in s[1..];
    }
  }

  /** Saving leaves every other file alone and keeps a part of what it is given. */
  lemma SaveWithin(st: Store, path: Path, entries: seq<Entry>, z: Sizes, caps: Caps, strategy: Strategy)
    ensures var st' := SaveCache(st, path, entries, z.width, caps, strategy);
            && path in st'.disk && Within(st'.disk[path], entries)
            && (forall p :: p != path ==> Load(st', p) == Load(st, p))
  {
    EvictWithin(entries, EvictOrder(strategy), Over(z.width, caps));
    OnDiskWithin(EvictCache(entries, z.width, caps, strategy));
  }

  ghost predicate OnlyRemoves(st: Store, st': Store)
  {
    forall p :: Within(Load(st', p), Load(st, p))
  }

  lemma OnlyRemovesTransitive(a: Store, b: Store, c: Store)
    requires OnlyRemoves(a, b) && OnlyRemoves(b, c)
    ensures OnlyRemoves(a, c)
  {
    forall p: Path ensures Within(Load(c, p), Load(a, p)) {
      assert Within(Load(b, p), Load(a, p)) && Within(Load(c, p), Load(b, p));
    }
  }

  lemma PruneFileRemoves(st: Store, path: Path, a: PruneArgs, z: Sizes)
    ensures OnlyRemoves(st, PruneFile(st, path, a, z.width))
  {
    UnprunedWithin(Load(st, path), a);
    SaveWithin(st, path, Unpruned(Load(st, path), a), z, DEFAULT_CAPS, Mixed);
  }

  lemma PruneRemoves(st: Store, base: Path, a: PruneArgs, z: Sizes)
    ensures OnlyRemoves(st, Prune(st, base, a, z.width))
  {
    var s1 := PruneFile(st, CacheFileForStrategy(base, Lru), a, z.width);
    var s2 := PruneFile(s1, CacheFileForStrategy(base, Lfu), a, z.width);
    var s3 := PruneFile(s2, CacheFileForStrategy(base, Mixed), a, z.width);
    PruneFileRemoves(st, CacheFileForStrategy(base, Lru), a, z);
    PruneFileRemoves(s1, CacheFileForStrategy(base, Lfu), a, z);
    PruneFileRemoves(s2, CacheFileForStrategy(base, Mixed), a, z);
    OnlyRemovesTransitive(st, s1, s2);
    OnlyRemovesTransitive(st, s2, s3);
  }

  lemma {:induction false} PopRemoves(st: Store, path: Path, cache: seq<Entry>, queue: seq<Entry>, maxBytes: int,
                                      z: Sizes, evicted: nat)
    requires path in st.disk ==> Within(cache, Load(st, path))
    ensures OnlyRemoves(st, PopLoop(st, path, cache, queue, maxBytes, z.width, z.fileSize, evicted).st)
    decreases |queue|
  {
    if queue != [] && path in st.disk && z.fileSize(st.disk[path]) > maxBytes && Find(cache, queue[0].url) != -1 {
      var rest := RemoveAt(cache, Find(cache, queue[0].url));
      var st' := SaveCache(st, path, rest, z.width, DEFAULT_CAPS, Mixed);
      var cache' := EvictCache(rest, z.width, DEFAULT_CAPS, Mixed);
      PopSaveRemoves(st, path, cache, rest, z);
      PopRemoves(st', path, cache', queue[1..], maxBytes, z, evicted + 1);
      OnlyRemovesTransitive(st, st',
        PopLoop(st', path, cache', queue[1..], maxBytes, z.width, z.fileSize, evicted + 1).st);
    }
  }

  lemma PopSaveRemoves(st: Store, path: Path, cache: seq<Entry>, rest: seq<Entry>, z: Sizes)
    requires path in st.disk && Within(cache, st.disk[path]) && Within(rest, cache)
    ensures var st' := SaveCache(st, path, rest, z.width, DEFAULT_CAPS, Mixed);
            && OnlyRemoves(st, st')
            && path in st'.disk && Within(EvictCache(rest, z.width, DEFAULT_CAPS, Mixed), st'.disk[path])
  {
    SaveWithin(st, path, rest, z, DEFAULT_CAPS, Mixed);
    SavedIsCache(st, path, rest, z);
  }

  lemma SavedIsCache(st: Store, path: Path, rest: seq<Entry>, z: Sizes)
    ensures var cache' := EvictCache(rest, z.width, DEFAULT_CAPS, Mixed);
            Within(cache', Load(SaveCache(st, path, rest, z.width, DEFAULT_CAPS, Mixed), path))
  {
    var cache' := EvictCache(rest, z.width, DEFAULT_CAPS, Mixed);
    var file := OnDisk(cache');
    if DistinctUrls(file) {
      MultisetDistinct(file, cache');
      forall e | e in cache' ensures e in file { assert e in multiset(cache'); }
    }
  }

  // ----- the history invariant

  /** An operation that only removes entries and asks nothing keeps every remaining entry accounted for. */
  lemma RemovalKeepsAccounts(ops: seq<Op>, z: Sizes)
    requires ops != [] && !ops[|ops| - 1].DoCheck?
    requires var before := ops[..|ops| - 1];
             && (forall p :: FileAccounted(Load(After(before, z), p), before, p, z))
             && OnlyRemoves(After(before, z), After(ops, z))
    ensures forall p :: FileAccounted(Load(After(ops, z), p), ops, p, z)
  {
    var before := ops[..|ops| - 1];
    forall p: Path ensures FileAccounted(Load(After(ops, z), p), ops, p, z) {
      assert Within(Load(After(ops, z), p), Load(After(before, z), p));
      assert FileAccounted(Load(After(before, z), p), before, p, z);
      forall e | e in Load(After(ops, z), p) ensures Accounted(e, ops, p, z) {
        assert Accounted(e, before, p, z);
        QuietStep(ops, p, e.url, z);
      }
    }
  }

  lemma QuietStep(ops: seq<Op>, path: Path, url: string, z: Sizes)
    requires ops != [] && !Asks(ops[|ops| - 1], path, url)
    ensures LastFetch(ops, path, url, z) == LastFetch(ops[..|ops| - 1], path, url, z)
    ensures HitsSinceFetch(ops, path, url, z) == HitsSinceFetch(ops[..|ops| - 1], path, url, z)
  {
  }

  lemma WrittenAccounted(ops: seq<Op>, z: Sizes)
    requires ops != [] && ops[|ops| - 1].DoCheck?
    requires var before := ops[..|ops| - 1]; var path := ops[|ops| - 1].q.path;
             FileAccounted(Load(After(before, z), path), before, path, z)
    ensures var q := ops[|ops| - 1].q;
            Accounted(Written(Load(After(ops[..|ops| - 1], z), q.path), q), ops, q.path, z)
  {
    var before, q := ops[..|ops| - 1], ops[|ops| - 1].q;
    var cache := Load(After(before, z), q.path);
    var i := Lookup(cache, q.url, q.ttl, q.lookupTime);
    if i != -1 {
      assert Accounted(cache[i], before, q.path, z);
      assert !EndsInMiss(ops, q.path, q.url, z);
    } else {
      assert EndsInMiss(ops, q.path, q.url, z);
    }
  }

  /** A check accounts for the entry it writes, whether it hit or fetched. */
  lemma RefreshAccounted(ops: seq<Op>, z: Sizes)
    requires ops != [] && ops[|ops| - 1].DoCheck?
    requires var before := ops[..|ops| - 1]; var path := ops[|ops| - 1].q.path;
             FileAccounted(Load(After(before, z), path), before, path, z)
    ensures var q := ops[|ops| - 1].q;
            FileAccounted(Refresh(Load(After(ops[..|ops| - 1], z), q.path), q), ops, q.path, z)
  {
    var before, q := ops[..|ops| - 1], ops[|ops| - 1].q;
    var cache := Load(After(before, z), q.path);
    var written := Written(cache, q);
    PutMembers(cache, written);
    WrittenAccounted(ops, z);
    forall e | e in Refresh(cache, q) && e != written ensures Accounted(e, ops, q.path, z) {
      assert Accounted(e, before, q.path, z);
      QuietStep(ops, q.path, e.url, z);
    }
  }

  lemma CheckKeepsAccounts(ops: seq<Op>, z: Sizes)
    requires ops != [] && ops[|ops| - 1].DoCheck?
    requires var before := ops[..|ops| - 1];
             forall p :: FileAccounted(Load(After(before, z), p), before, p, z)
    ensures forall p :: FileAccounted(Load(After(ops, z), p), ops, p, z)
  {
    var before, q := ops[..|ops| - 1], ops[|ops| - 1].q;
    var st := After(before, z);
    var dict := Refresh(Load(st, q.path), q);
    assert FileAccounted(Load(st, q.path), before, q.path, z);
    RefreshAccounted(ops, z);
    SaveWithin(st, q.path, dict, z, q.caps, q.strategy);
    forall p: Path ensures FileAccounted(Load(After(ops, z), p), ops, p, z) {
      if p != q.path {
        assert FileAccounted(Load(st, p), before, p, z);
        forall e | e in Load(st, p) ensures Accounted(e, ops, p, z) {
          assert Accounted(e, before, p, z);
          QuietStep(ops, p, e.url, z);
        }
      }
    }
  }

  /** Over every run: each stored entry is what its last fetch recorded, and its `access_count` is the
      number of hits since that fetch. */
  lemma {:induction false} EntriesAccounted(ops: seq<Op>, z: Sizes)
    ensures forall p :: FileAccounted(Load(After(ops, z), p), ops, p, z)
  {
    if ops != [] {
      var before, op := ops[..|ops| - 1], ops[|ops| - 1];
      EntriesAccounted(before, z);
      var st := After(before, z);
      if op.DoCheck? {
        CheckKeepsAccounts(ops, z);
      } else {
        match op {
          case DoPrune(base, args) => PruneRemoves(st, base, args, z);
          case DoClear(path) =>
          case DoEvict(base, strategy, maxBytes) =>
            var path := CacheFileForStrategy(base, strategy);
            PopRemoves(st, path, Load(st, path), Sort(Load(st, path), PopOrder(strategy)), maxBytes, z, 0);
        }
        RemovalKeepsAccounts(ops, z);
      }
    }
  }

  /** Over every run, the issues a check returns are its own online result, or those recorded by the
      latest earlier fetch of the same url into the same file, no more than `ttl` seconds before. */
  lemma AnswersAreFreshOrRecent(ops: seq<Op>, i: nat, z: Sizes)
    requires i < |ops| && ops[i].DoCheck?
    ensures var q := ops[i].q;
            var answer := Answer(Load(After(ops[..i], z), q.path), q);
            var j := LastFetch(ops[..i], q.path, q.url, z);
            if IsHit(Load(After(ops[..i], z), q.path), q)
            then 0 <= j < i && answer == ops[j].q.online && q.lookupTime - ops[j].q.fetchTime <= q.ttl as real
            else answer == q.online
  {
    var q := ops[i].q;
    var cache := Load(After(ops[..i], z), q.path);
    EntriesAccounted(ops[..i], z);
    assert FileAccounted(cache, ops[..i], q.path, z);
    if IsHit(cache, q) {
      assert Accounted(cache[Find(cache, q.url)], ops[..i], q.path, z);
    }
  }

  // ----- conservation of entries

  ghost function Present(disk: map<Path, seq<Entry>>): nat
    decreases |disk|
  {
    if disk == map[] then 0
    else
      var p :| p in disk;
      |disk[p]| + Present(disk - {p})
  }

  lemma {:induction false} PresentAt(disk: map<Path, seq<Entry>>, p: Path)
    requires p in disk
    ensures Present(disk) == |disk[p]| + Present(disk - {p})
    decreases |disk|
  {
    var q :| q in disk && Present(disk) == |disk[q]| + Present(disk - {q});
    if q != p {
      PresentAt(disk - {q}, p);
      PresentAt(disk - {p}, q);
      assert disk - {q} - {p} == disk - {p} - {q};
    }
  }

  lemma PresentSet(disk: map<Path, seq<Entry>>, p: Path, s: seq<Entry>)
    ensures Present(disk[p := s]) == Present(disk - {p}) + |s|
    ensures Present(disk) == Present(disk - {p}) + |if p in disk then disk[p] else []|
  {
    PresentAt(disk[p := s], p);
    assert disk[p := s] - {p} == disk - {p};
    if p in disk {
      PresentAt(disk, p);
    } else {
      assert disk - {p} == disk;
    }
  }

  /** Entries a check adds under a url the cache did not hold. */
  function Added(st: Store, op: Op): nat
  {
    if op.DoCheck? && Find(Load(st, op.q.path), op.q.url) == -1 then 1 else 0
  }

  function PrunedFrom(st: Store, path: Path, a: PruneArgs): nat
  {
    if a.dryRun then 0 else |Load(st, path)| - |Unpruned(Load(st, path), a)|
  }

  /** Entries an operation deletes itself, as opposed to those `_save_cache` evicts. */
  function Deleted(st: Store, op: Op, z: Sizes): nat
  {
    match op
    case DoCheck(q) => 0
    case DoPrune(base, a) =>
      var s1 := PruneFile(st, CacheFileForStrategy(base, Lru), a, z.width);
      var s2 := PruneFile(s1, CacheFileForStrategy(base, Lfu), a, z.width);
      PrunedFrom(st, CacheFileForStrategy(base, Lru), a)
      + PrunedFrom(s1, CacheFileForStrategy(base, Lfu), a)
      + PrunedFrom(s2, CacheFileForStrategy(base, Mixed), a)
    case DoClear(path) => |Load(st, path)|
    case DoEvict(base, strategy, maxBytes) => EvictOverSize(st, base, strategy, maxBytes, z.width, z.fileSize).evicted
  }

  function AddedBy(ops: seq<Op>, z: Sizes): nat
  {
    if ops == [] then 0
    else AddedBy(ops[..|ops| - 1], z) + Added(After(ops[..|ops| - 1], z), ops[|ops| - 1])
  }

  function DeletedBy(ops: seq<Op>, z: Sizes): nat
  {
    if ops == [] then 0
    else DeletedBy(ops[..|ops| - 1], z) + Deleted(After(ops[..|ops| - 1], z), ops[|ops| - 1], z)
  }

  ghost function Books(st: Store): nat { Present(st.disk) + st.total }

  ghost predicate CountersAgree(st: Store) { st.total == st.session == st.lru + st.lfu }

  lemma SaveBooks(st: Store, path: Path, entries: seq<Entry>, z: Sizes, caps: Caps, strategy: Strategy)
    ensures var st' := SaveCache(st, path, entries, z.width, caps, strategy);
            && Books(st') + |Load(st, path)| == Books(st) + |entries|
            && (CountersAgree(st) ==> CountersAgree(st'))
            && |Load(st', path)| == |EvictCache(entries, z.width, caps, strategy)|
  {
    PresentSet(st.disk, path, OnDisk(EvictCache(entries, z.width, caps, strategy)));
  }

  /** What the loop goes on with after one turn: one entry fewer on the books. */
  lemma PopTurnBooks(st: Store, path: Path, cache: seq<Entry>, queue: seq<Entry>, maxBytes: int, z: Sizes, evicted: nat)
    returns (st': Store, kept: seq<Entry>)
    requires queue != [] && path in st.disk && z.fileSize(st.disk[path]) > maxBytes
    requires Find(cache, queue[0].url) != -1 && |cache| == |st.disk[path]|
    ensures PopLoop(st, path, cache, queue, maxBytes, z.width, z.fileSize, evicted)
         == PopLoop(st', path, kept, queue[1..], maxBytes, z.width, z.fileSize, evicted + 1)
    ensures Books(st') + 1 == Books(st) && (CountersAgree(st) ==> CountersAgree(st'))
    ensures path in st'.disk && |kept| == |st'.disk[path]|
  {
    var rest := RemoveAt(cache, Find(cache, queue[0].url));
    st' := SaveCache(st, path, rest, z.width, DEFAULT_CAPS, Mixed);
    kept := EvictCache(rest, z.width, DEFAULT_CAPS, Mixed);
    SaveBooks(st, path, rest, z, DEFAULT_CAPS, Mixed);
  }

  /** From `st` on, everything that left the books was evicted by the loop. */
  ghost predicate Balanced(st: Store, evicted: nat, r: PopResult)
  {
    Books(r.st) + r.evicted == Books(st) + evicted && (CountersAgree(st) ==> CountersAgree(r.st))
  }

  lemma PopEnds(st: Store, path: Path, cache: seq<Entry>, queue: seq<Entry>, maxBytes: int, z: Sizes, evicted: nat)
    requires queue == [] || path !in st.disk || z.fileSize(st.disk[path]) <= maxBytes || Find(cache, queue[0].url) == -1
    ensures Balanced(st, evicted, PopLoop(st, path, cache, queue, maxBytes, z.width, z.fileSize, evicted))
  {
  }

  lemma BalancedNext(st: Store, st': Store, evicted: nat, r: PopResult)
    requires Books(st') + 1 == Books(st) && (CountersAgree(st) ==> CountersAgree(st')) && Balanced(st', evicted + 1, r)
    ensures Balanced(st, evicted, r)
  {
  }

  lemma {:induction false} PopBooks(st: Store, path: Path, cache: seq<Entry>, queue: seq<Entry>, maxBytes: int,
                                    z: Sizes, evicted: nat, r: PopResult)
    requires path in st.disk ==> |cache| == |st.disk[path]|
    requires r == PopLoop(st, path, cache, queue, maxBytes, z.width, z.fileSize, evicted)
    ensures Balanced(st, evicted, r)
    decreases |queue|
  {
    if queue != [] && path in st.disk && z.fileSize(st.disk[path]) > maxBytes && Find(cache, queue[0].url) != -1 {
      var st', kept := PopTurnBooks(st, path, cache, queue, maxBytes, z, evicted);
      PopBooks(st', path, kept, queue[1..], maxBytes, z, evicted + 1, r);
      BalancedNext(st, st', evicted, r);
    } else {
      PopEnds(st, path, cache, queue, maxBytes, z, evicted);
    }
  }

  lemma PruneFileBooks(st: Store, path: Path, a: PruneArgs, z: Sizes)
    ensures var st' := PruneFile(st, path, a, z.width);
            && Books(st') + PrunedFrom(st, path, a) == Books(st)
            && (CountersAgree(st) ==> CountersAgree(st'))
  {
    SaveBooks(st, path, Unpruned(Load(st, path), a), z, DEFAULT_CAPS, Mixed);
  }

  lemma StepBooks(st: Store, op: Op, z: Sizes)
    ensures Books(Step(st, op, z)) + Deleted(st, op, z) == Books(st) + Added(st, op)
    ensures CountersAgree(st) ==> CountersAgree(Step(st, op, z))
  {
    match op {
      case DoCheck(q) =>
        SaveBooks(st, q.path, Refresh(Load(st, q.path), q), z, q.caps, q.strategy);
      case DoPrune(base, a) =>
        var s1 := PruneFile(st, CacheFileForStrategy(base, Lru), a, z.width);
        var s2 := PruneFile(s1, CacheFileForStrategy(base, Lfu), a, z.width);
        PruneFileBooks(st, CacheFileForStrategy(base, Lru), a, z);
        PruneFileBooks(s1, CacheFileForStrategy(base, Lfu), a, z);
        PruneFileBooks(s2, CacheFileForStrategy(base, Mixed), a, z);
      case DoClear(path) =>
        PresentSet(st.disk, path, []);
      case DoEvict(base, strategy, maxBytes) =>
        var path := CacheFileForStrategy(base, strategy);
        PopBooks(st, path, Load(st, path), Sort(Load(st, path), PopOrder(strategy)), maxBytes, z, 0,
                 EvictOverSize(st, base, strategy, maxBytes, z.width, z.fileSize));
    }
  }

  /** Over every run the eviction counters agree with each other and with the books: every entry ever
      added is still stored, was deleted by an operation, or was counted as evicted, exactly once. */
  lemma {:induction false} EvictionCountersBalance(ops: seq<Op>, z: Sizes)
    ensures var st := After(ops, z);
            && st.total == st.session == st.lru + st.lfu
            && Present(st.disk) + st.total + DeletedBy(ops, z) == AddedBy(ops, z)
  {
    if ops != [] {
      var before := ops[..|ops| - 1];
      EvictionCountersBalance(before, z);
      StepBooks(After(before, z), ops[|ops| - 1], z);
    }
  }
}
