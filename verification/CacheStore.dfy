/** Cache files on disk and the eviction counters: what each public operation does to them.
    These functions specify the methods of class `CacheModule` in UrlCache.dfy. */
module CacheStore {
  import opened Options
  import opened Ordering
  import opened Eviction
  import opened CacheModel

  // ----- files are printed with sorted keys

  /** Python's order on `str`: by code point, a prefix first. */
  predicate StrLe(a: string, b: string)
  {
    a == [] || (b != [] && (a[0] < b[0] || (a[0] == b[0] && StrLe(a[1..], b[1..]))))
  }

  lemma {:induction false} StrLeTotal(a: string, b: string)
    ensures StrLe(a, b) || StrLe(b, a)
    ensures StrLe(a, b) && StrLe(b, a) ==> a == b
  {
    if a != [] && b != [] && a[0] == b[0] {
      StrLeTotal(a[1..], b[1..]);
      assert a == [a[0]] + a[1..] && b == [b[0]] + b[1..];
    }
  }

  lemma {:induction false} StrLeTransitive(a: string, b: string, c: string)
    requires StrLe(a, b) && StrLe(b, c)
    ensures StrLe(a, c)
  {
    if a != [] && a[0] == b[0] == c[0] { StrLeTransitive(a[1..], b[1..], c[1..]); }
  }

  /** One is the start of the other, or they first differ in a character that is smaller. */
  lemma {:induction false} StrLeIff(a: string, b: string)
    ensures StrLe(a, b) <==> exists k: nat :: FirstSmaller(a, b, k)
  {
    if a == [] {
      assert FirstSmaller(a, b, 0);
    } else if b != [] && a[0] == b[0] {
      StrLeIff(a[1..], b[1..]);
      forall k: nat ensures FirstSmaller(a[1..], b[1..], k) <==> FirstSmaller(a, b, k + 1) {
        assert k <= |a[1..]| && k <= |b[1..]| ==>
            (a[1..][..k] == b[1..][..k] <==> a[..k + 1] == b[..k + 1]) by {
          if k <= |a[1..]| && k <= |b[1..]| {
            assert a[..k + 1] == [a[0]] + a[1..][..k] && b[..k + 1] == [b[0]] + b[1..][..k];
          }
        }
      }
      if k: nat :| FirstSmaller(a, b, k) {
        if k > 0 { assert FirstSmaller(a[1..], b[1..], k - 1); }
      }
    } else if StrLe(a, b) {
      assert FirstSmaller(a, b, 0);
    }
  }

  ghost predicate FirstSmaller(a: string, b: string, k: nat)
  {
    && k <= |a| && k <= |b| && a[..k] == b[..k]
    && (k == |a| || (k < |b| && a[k] < b[k]))
  }

  function ByUrl(): (Entry, Entry) -> bool { (a: Entry, b: Entry) => StrLe(a.url, b.url) }

  lemma ByUrlIsPreorder()
    ensures TotalPreorder(ByUrl())
  {
    forall a: Entry, b: Entry ensures ByUrl()(a, b) || ByUrl()(b, a) { StrLeTotal(a.url, b.url); }
    forall a: Entry, b: Entry, c: Entry | ByUrl()(a, b) && ByUrl()(b, c) ensures ByUrl()(a, c) {
      StrLeTransitive(a.url, b.url, c.url);
    }
  }

  /** The entries as they come back from a file written from the dict `s`. */
  function OnDisk(s: seq<Entry>): (r: seq<Entry>)
    ensures |r| == |s|
    ensures multiset(r) == multiset(s)
  {
    SortMultiset(s, ByUrl());
    Sort(s, ByUrl())
  }

  /** Two dicts with the same entries print the same file. */
  lemma OnDiskIgnoresOrder(s: seq<Entry>, t: seq<Entry>)
    requires DistinctUrls(s) && multiset(s) == multiset(t)
    ensures OnDisk(s) == OnDisk(t)
  {
    ByUrlIsPreorder();
    SortIsStable(s, ByUrl());
    SortIsStable(t, ByUrl());
    SortedDistinctUnique(OnDisk(s), OnDisk(t));
  }

  /** A file as `_save_cache` leaves it: urls distinct, keys sorted. */
  ghost predicate Canonical(s: seq<Entry>) { DistinctUrls(s) && OnDisk(s) == s }

  /** Nothing of `r` is new. */
  ghost predicate Within(r: seq<Entry>, s: seq<Entry>)
  {
    DistinctUrls(s) ==> DistinctUrls(r) && forall e :: e in r ==> e in s
  }

  lemma {:induction false} EvictWithin(s: seq<Entry>, le: (Entry, Entry) -> bool, over: seq<Entry> -> bool)
    ensures Within(Evict(s, le, over), s)
    decreases |s|
  {
    if s != [] && over(s) {
      EvictWithin(RemoveAt(s, FirstMin(s, le)), le, over);
    }
  }

  lemma MultisetDistinct(s: seq<Entry>, t: seq<Entry>)
    requires DistinctUrls(s) && multiset(s) == multiset(t)
    ensures DistinctUrls(t)
  {
    if i, j :| 0 <= i < j < |t| && t[i].url == t[j].url {
      assert t[i] in multiset(s) && t[j] in multiset(s);
      if t[i] == t[j] {
        TwiceInMultiset(t, i, j);
        var x := t[i];
        assert multiset(s)[x] >= 2;
        OnceInDistinct(s, x);
      }
    }
  }

  lemma TwiceInMultiset(t: seq<Entry>, i: nat, j: nat)
    requires i < j < |t| && t[i] == t[j]
    ensures multiset(t)[t[i]] >= 2
  {
    assert t == t[..i] + [t[i]] + t[i + 1..j] + [t[j]] + t[j + 1..];
  }

  lemma {:induction false} OnceInDistinct(s: seq<Entry>, x: Entry)
    requires DistinctUrls(s)
    ensures multiset(s)[x] <= 1
  {
    if s != [] {
      assert s == [s[0]] + s[1..];
      OnceInDistinct(s[1..], x);
      assert forall j :: 0 < j < |s| ==> s[j] == s[1..][j - 1];
    }
  }

  lemma {:induction false} SortedDistinctUnique(t: seq<Entry>, u: seq<Entry>)
    requires Sorted(t, ByUrl()) && Sorted(u, ByUrl()) && multiset(t) == multiset(u)
    requires exists s :: DistinctUrls(s) && multiset(s) == multiset(t)
    ensures t == u
  {
    var s :| DistinctUrls(s) && multiset(s) == multiset(t);
    MultisetDistinct(s, t);
    MultisetDistinct(s, u);
    SortedDistinctSame(t, u);
  }

  lemma {:induction false} SortedDistinctSame(t: seq<Entry>, u: seq<Entry>)
    requires Sorted(t, ByUrl()) && Sorted(u, ByUrl()) && multiset(t) == multiset(u)
    requires DistinctUrls(t) && DistinctUrls(u)
    ensures t == u
  {
    if |t| > 0 {
      assert |multiset(t)| == |multiset(u)|;
      SameHeads(t, u);
      TailMultiset(t);
      TailMultiset(u);
      SortedDistinctSame(t[1..], u[1..]);
      assert t == [t[0]] + t[1..] && u == [u[0]] + u[1..];
    } else {
      assert |multiset(u)| == 0;
    }
  }

  lemma TailMultiset(t: seq<Entry>)
    requires t != []
    ensures multiset(t[1..]) == multiset(t) - multiset{t[0]}
  {
    assert t == [t[0]] + t[1..];
  }

  lemma SameHeads(t: seq<Entry>, u: seq<Entry>)
    requires Sorted(t, ByUrl()) && Sorted(u, ByUrl()) && multiset(t) == multiset(u)
    requires DistinctUrls(t) && t != [] && u != []
    ensures t[0] == u[0]
  {
    assert t[0] in multiset(u) && u[0] in multiset(t);
    var i :| 0 <= i < |u| && u[i] == t[0];
    var j :| 0 <= j < |t| && t[j] == u[0];
    StrLeTotal(t[0].url, t[0].url);
    assert StrLe(u[0].url, t[0].url) by { if i > 0 { assert ByUrl()(u[0], u[i]); } }
    assert StrLe(t[0].url, u[0].url) by { if j > 0 { assert ByUrl()(t[0], t[j]); } }
    StrLeTotal(t[0].url, u[0].url);
  }

  // ----- the store

  /** `stem` and `suffix` of a cache file path; the directory plays no part. */
  datatype Path = Path(stem: string, suffix: string)

  function StrategyName(s: Strategy): string
  {
    match s case Lru => "lru" case Lfu => "lfu" case Mixed => "mixed"
  }

  function CacheFileForStrategy(base: Path, s: Strategy): Path
  {
    Path(base.stem + "_" + StrategyName(s), base.suffix)
  }

  lemma StrategyFileNames(base: Path)
    ensures CacheFileForStrategy(base, Lru) == Path(base.stem + "_lru", base.suffix)
    ensures CacheFileForStrategy(base, Lfu) == Path(base.stem + "_lfu", base.suffix)
    ensures CacheFileForStrategy(base, Mixed) == Path(base.stem + "_mixed", base.suffix)
  {
    assert base.stem + "_" + "lru" == base.stem + "_lru";
    assert base.stem + "_" + "lfu" == base.stem + "_lfu";
    assert base.stem + "_" + "mixed" == base.stem + "_mixed";
  }

  lemma StrategyFilesDiffer(base: Path, s: Strategy, t: Strategy)
    requires s != t
    ensures CacheFileForStrategy(base, s) != CacheFileForStrategy(base, t)
  {
    var a, b := CacheFileForStrategy(base, s).stem, CacheFileForStrategy(base, t).stem;
    var k := |base.stem| + 1;
    if |StrategyName(s)| == |StrategyName(t)| {
      assert a[k..] == StrategyName(s) && b[k..] == StrategyName(t);
      assert StrategyName(s)[1] != StrategyName(t)[1];
    } else {
      assert |a| != |b|;
    }
  }

  /** The files (with what loading them yields) and the module-level counters. */
  datatype Store = Store(disk: map<Path, seq<Entry>>, total: nat, session: nat, lru: nat, lfu: nat)

  function Load(st: Store, path: Path): seq<Entry>
  {
    if path in st.disk then st.disk[path] else []
  }

  function Count(st: Store, n: nat, strategy: Strategy): Store
  {
    st.(total := st.total + n, session := st.session + n,
        lru := if strategy.Lru? then st.lru + n else st.lru,
        lfu := if strategy.Lru? then st.lfu else st.lfu + n)
  }

  function SaveCache(st: Store, path: Path, entries: seq<Entry>, width: Entry -> nat, caps: Caps, strategy: Strategy)
    : (st': Store)
  {
    var kept := EvictCache(entries, width, caps, strategy);
    Count(st, |entries| - |kept|, strategy).(disk := st.disk[path := OnDisk(kept)])
  }

  /** `_cache_lookup`: the position of a usable entry. An entry aged exactly `ttl` is still usable. */
  function Lookup(cache: seq<Entry>, url: string, ttl: int, now: real): (i: int)
    ensures -1 <= i < |cache|
  {
    var i := Find(cache, url);
    if i == -1 || now - cache[i].timestamp > ttl as real then -1 else i
  }

  /** One call of `check_url_with_cache`, with what the outside world supplies: the clock reading of the
      lookup, the online result, the clock reading when it is recorded. */
  datatype Request = Request(path: Path, url: string, ttl: int, caps: Caps, strategy: Strategy,
                             lookupTime: real, online: seq<Issue>, fetchTime: real)

  predicate IsHit(cache: seq<Entry>, q: Request)
  {
    Lookup(cache, q.url, q.ttl, q.lookupTime) != -1
  }

  /** The entry a call leaves under its url: counted once more after a hit, fetched anew after a miss. */
  function Written(cache: seq<Entry>, q: Request): (e: Entry)
  {
    var i := Lookup(cache, q.url, q.ttl, q.lookupTime);
    if i != -1 then cache[i].(accessCount := cache[i].accessCount + 1) else Entry(q.url, q.fetchTime, q.online, 0)
  }

  /** The dict handed to `_save_cache`. */
  function Refresh(cache: seq<Entry>, q: Request): (r: seq<Entry>) { Put(cache, Written(cache, q)) }

  function Answer(cache: seq<Entry>, q: Request): seq<Issue>
  {
    var i := Lookup(cache, q.url, q.ttl, q.lookupTime);
    if i != -1 then cache[i].issues else q.online
  }

  function Check(st: Store, q: Request, width: Entry -> nat): (st': Store)
  {
    SaveCache(st, q.path, Refresh(Load(st, q.path), q), width, q.caps, q.strategy)
  }

  // ----- when a check must answer from the cache

  lemma FindMember(cache: seq<Entry>, e: Entry)
    requires DistinctUrls(cache) && e in cache
    ensures Find(cache, e.url) != -1 && cache[Find(cache, e.url)] == e
  {
    var k :| 0 <= k < |cache| && cache[k] == e;
    FindDistinct(cache, k);
  }

  /** An entry of the url that is at most `ttl` seconds old answers, and is in the dict with one more hit;
      the entries of other urls stay. */
  lemma FreshEntryAnswers(cache: seq<Entry>, q: Request, e: Entry)
    requires DistinctUrls(cache) && e in cache && e.url == q.url && q.lookupTime - e.timestamp <= q.ttl as real
    ensures Answer(cache, q) == e.issues
    ensures forall x :: x in Refresh(cache, q) <==>
              x == Entry(q.url, e.timestamp, e.issues, e.accessCount + 1) || (x in cache && x.url != q.url)
  {
    FindMember(cache, e);
    PutMembers(cache, Written(cache, q));
  }

  /** If there is no such entry, the online result is the answer, and the url holds it with no hits. */
  lemma StaleEntryIsFetchedAnew(cache: seq<Entry>, q: Request)
    requires DistinctUrls(cache)
    requires forall e :: e in cache && e.url == q.url ==> q.lookupTime - e.timestamp > q.ttl as real
    ensures Answer(cache, q) == q.online
    ensures forall x :: x in Refresh(cache, q) <==>
              x == Entry(q.url, q.fetchTime, q.online, 0) || (x in cache && x.url != q.url)
  {
    var i := Find(cache, q.url);
    if i != -1 { assert cache[i] in cache; }
    PutMembers(cache, Written(cache, q));
  }

  /** The file after a check holds entries of that dict only, and all of them if they meet the caps. */
  lemma CheckedFile(st: Store, q: Request, width: Entry -> nat)
    ensures q.path in Check(st, q, width).disk
    ensures var dict, file := Refresh(Load(st, q.path), q), Load(Check(st, q, width), q.path);
            && (forall x :: x in file ==> x in dict)
            && (PrintedSize(dict, width) <= q.caps.maxBytes && |dict| <= q.caps.maxEntries ==>
                  forall x :: x in dict ==> x in file)
  {
    var dict := Refresh(Load(st, q.path), q);
    var kept := EvictCache(dict, width, q.caps, q.strategy);
    SaveMeetsCaps(dict, width, q.caps, q.strategy);
    forall x | x in OnDisk(kept) ensures x in dict {
      assert x in multiset(OnDisk(kept));
      assert x in kept;
      SurvivorsAreOld(dict, EvictOrder(q.strategy), Over(width, q.caps), x);
    }
    forall x | x in kept ensures x in OnDisk(kept) { assert x in multiset(kept); }
  }

  /** Evictions under lru count as lru, all others as lfu; either way they count in both totals. */
  lemma EvictionsCounted(st: Store, path: Path, entries: seq<Entry>, width: Entry -> nat, caps: Caps,
                         strategy: Strategy)
    ensures var st' := SaveCache(st, path, entries, width, caps, strategy);
            var evicted := |entries| - |st'.disk[path]|;
            && evicted >= 0 && st'.total == st.total + evicted && st'.session == st.session + evicted
            && (strategy == Lru ==> st'.lru == st.lru + evicted && st'.lfu == st.lfu)
            && (strategy != Lru ==> st'.lfu == st.lfu + evicted && st'.lru == st.lru)
  {
  }

  // ----- cache_prune

  datatype PruneArgs = PruneArgs(maxAge: Option<real>, minAccessCount: int, dryRun: bool, now: real)

  predicate Prunable(e: Entry, a: PruneArgs)
  {
    && (a.maxAge.None? || a.now - e.timestamp > a.maxAge.value)
    && !(e.accessCount >= a.minAccessCount && a.minAccessCount > 0)
  }

  function Unpruned(s: seq<Entry>, a: PruneArgs): (r: seq<Entry>)
    ensures |r| <= |s|
  {
    if s == [] then []
    else (if Prunable(s[0], a) then [] else [s[0]]) + Unpruned(s[1..], a)
  }

  /** An entry stays if and only if it is young enough, or has enough hits. */
  lemma {:induction false} UnprunedMembers(s: seq<Entry>, a: PruneArgs)
    ensures forall e :: e in Unpruned(s, a) <==>
              e in s && ((a.maxAge.Some? && a.now - e.timestamp <= a.maxAge.value)
                         || (0 < a.minAccessCount <= e.accessCount))
  {
    if s != [] {
      UnprunedMembers(s[1..], a);
      assert s == [s[0]] + s[1..];
    }
  }

  datatype PruneReport = PruneReport(removed: int, kept: int, total: int, dryRun: bool)

  /** The `_overall` entry of what `cache_prune` returns. */
  datatype PruneTotal = PruneTotal(totalRemoved: int, dryRun: bool)

  function PruneFile(st: Store, path: Path, a: PruneArgs, width: Entry -> nat): (st': Store)
  {
    var left := Unpruned(Load(st, path), a);
    if path !in st.disk || a.dryRun || |left| == |st.disk[path]| then st
    else SaveCache(st, path, left, width, DEFAULT_CAPS, Mixed)
  }

  /** What `cache_prune` reports for one file. `len(entries)` is read after the deletions and after
      `_save_cache` has evicted from the same dict. */
  function ReportFile(st: Store, path: Path, a: PruneArgs, width: Entry -> nat): (r: PruneReport)
  {
    var removed := |Load(st, path)| - |Unpruned(Load(st, path), a)|;
    var len := |Load(PruneFile(st, path, a, width), path)|;
    PruneReport(removed, len - removed, len, a.dryRun)
  }

  function Prune(st: Store, base: Path, a: PruneArgs, width: Entry -> nat): (st': Store)
  {
    var s1 := PruneFile(st, CacheFileForStrategy(base, Lru), a, width);
    var s2 := PruneFile(s1, CacheFileForStrategy(base, Lfu), a, width);
    PruneFile(s2, CacheFileForStrategy(base, Mixed), a, width)
  }

  /** The three reports, each on the store as the files before it left it. */
  function PruneReports(st: Store, base: Path, a: PruneArgs, width: Entry -> nat): map<Strategy, PruneReport>
  {
    var s1 := PruneFile(st, CacheFileForStrategy(base, Lru), a, width);
    var s2 := PruneFile(s1, CacheFileForStrategy(base, Lfu), a, width);
    map[Lru := ReportFile(st, CacheFileForStrategy(base, Lru), a, width),
        Lfu := ReportFile(s1, CacheFileForStrategy(base, Lfu), a, width),
        Mixed := ReportFile(s2, CacheFileForStrategy(base, Mixed), a, width)]
  }

  /** How many entries the three files of `base` hold. */
  function EntryCount(st: Store, base: Path): nat
  {
    |Load(st, CacheFileForStrategy(base, Lru))| + |Load(st, CacheFileForStrategy(base, Lfu))|
    + |Load(st, CacheFileForStrategy(base, Mixed))|
  }

  lemma PruneFileShrinks(st: Store, path: Path, a: PruneArgs, width: Entry -> nat)
    ensures var st' := PruneFile(st, path, a, width);
            && (forall p :: p != path ==> Load(st', p) == Load(st, p))
            && |Load(st', path)| <= |Load(st, path)|
            && (a.dryRun ==> st' == st)
            && (!a.dryRun ==> |Load(st', path)| <= |Unpruned(Load(st, path), a)|)
            && (!a.dryRun && !Over(width, DEFAULT_CAPS)(Unpruned(Load(st, path), a)) ==>
                  |Load(st', path)| == |Unpruned(Load(st, path), a)|)
  {
    var left := Unpruned(Load(st, path), a);
    if !Over(width, DEFAULT_CAPS)(left) {
      SaveFits(st, path, left, width);
    }
  }

  ghost predicate UnprunedFit(st: Store, base: Path, a: PruneArgs, width: Entry -> nat)
  {
    forall s :: !Over(width, DEFAULT_CAPS)(Unpruned(Load(st, CacheFileForStrategy(base, s)), a))
  }

  /** A real run takes out at least the entries that it reports, and exactly those when what they leave
      fits the default caps; a dry run takes out nothing. */
  lemma PruneAccounts(st: Store, base: Path, a: PruneArgs, width: Entry -> nat)
    ensures var r := PruneReports(st, base, a, width);
            var total := r[Lru].removed + r[Lfu].removed + r[Mixed].removed;
            var st' := Prune(st, base, a, width);
            && (a.dryRun ==> st' == st)
            && (!a.dryRun ==> EntryCount(st', base) <= EntryCount(st, base) - total)
            && (!a.dryRun && UnprunedFit(st, base, a, width) ==> EntryCount(st', base) == EntryCount(st, base) - total)
  {
    var lru, lfu := CacheFileForStrategy(base, Lru), CacheFileForStrategy(base, Lfu);
    var mixed := CacheFileForStrategy(base, Mixed);
    StrategyFilesDiffer(base, Lru, Lfu);
    StrategyFilesDiffer(base, Lru, Mixed);
    StrategyFilesDiffer(base, Lfu, Mixed);
    var s1 := PruneFile(st, lru, a, width);
    var s2 := PruneFile(s1, lfu, a, width);
    PruneFileShrinks(st, lru, a, width);
    PruneFileShrinks(s1, lfu, a, width);
    PruneFileShrinks(s2, mixed, a, width);
  }

  function Clear(st: Store, path: Path): Store
  {
    st.(disk := st.disk - {path})
  }

  // ----- evict_lru_over_size / evict_lfu_over_size

  datatype PopResult = PopResult(st: Store, evicted: nat, keyError: bool)

  /** `key=lambda kv: kv[1].timestamp` and `key=lambda kv: kv[1].access_count`. */
  function PopOrder(strategy: Strategy): (Entry, Entry) -> bool
  {
    if strategy.Lru? then ByKey((e: Entry) => Key(0.0, e.timestamp))
    else ByKey((e: Entry) => Key(e.accessCount as real, 0.0))
  }

  /** The loop: pop from the list sorted up front, delete that url, save, look at the file again. The
      save is the ordinary one, under the default caps, and evicts from `cache` itself. */
  function PopLoop(st: Store, path: Path, cache: seq<Entry>, queue: seq<Entry>, maxBytes: int,
                   width: Entry -> nat, fileSize: seq<Entry> -> nat, evicted: nat): (r: PopResult)
    decreases |queue|
  {
    if queue == [] || path !in st.disk || fileSize(st.disk[path]) <= maxBytes then PopResult(st, evicted, false)
    else
      var i := Find(cache, queue[0].url);
      if i == -1 then PopResult(st, evicted, true)
      else
        var rest := RemoveAt(cache, i);
        PopLoop(SaveCache(st, path, rest, width, DEFAULT_CAPS, Mixed), path,
                EvictCache(rest, width, DEFAULT_CAPS, Mixed), queue[1..], maxBytes, width, fileSize, evicted + 1)
  }

  function EvictOverSize(st: Store, base: Path, strategy: Strategy, maxBytes: int,
                         width: Entry -> nat, fileSize: seq<Entry> -> nat): (r: PopResult)
  {
    var path := CacheFileForStrategy(base, strategy);
    var cache := Load(st, path);
    PopLoop(st, path, cache, Sort(cache, PopOrder(strategy)), maxBytes, width, fileSize, 0)
  }

  function OverFileSize(fileSize: seq<Entry> -> nat, maxBytes: int): seq<Entry> -> bool
  {
    s => fileSize(OnDisk(s)) > maxBytes
  }

  lemma {:induction false} EvictNothing(s: seq<Entry>, width: Entry -> nat, strategy: Strategy, caps: Caps)
    requires !Over(width, caps)(s)
    ensures EvictCache(s, width, caps, strategy) == s
  {
  }

  /** Inside the default caps a save is a plain write. */
  lemma SaveFits(st: Store, path: Path, entries: seq<Entry>, width: Entry -> nat)
    requires !Over(width, DEFAULT_CAPS)(entries)
    ensures EvictCache(entries, width, DEFAULT_CAPS, Mixed) == entries
    ensures SaveCache(st, path, entries, width, DEFAULT_CAPS, Mixed) == st.(disk := st.disk[path := OnDisk(entries)])
  {
    EvictNothing(entries, width, Mixed, DEFAULT_CAPS);
  }

  lemma FitsShrinks(s: seq<Entry>, i: nat, width: Entry -> nat, caps: Caps)
    requires i < |s| && !Over(width, caps)(s)
    ensures !Over(width, caps)(RemoveAt(s, i))
  {
    CapsShrink(width, caps);
    assert Over(width, caps)(RemoveAt(s, i)) ==> Over(width, caps)(s);
  }

  lemma FindDistinct(s: seq<Entry>, i: nat)
    requires DistinctUrls(s) && i < |s|
    ensures Find(s, s[i].url) == i
  {
    var k := Find(s, s[i].url);
    assert k == -1 || s[k].url == s[i].url;
  }

  /** The first turn pops the first least entry and hands the rest to the save. */
  lemma FirstTurn(st: Store, path: Path, cache: seq<Entry>, le: (Entry, Entry) -> bool, maxBytes: int,
                  width: Entry -> nat, fileSize: seq<Entry> -> nat, evicted: nat)
    requires path in st.disk && fileSize(st.disk[path]) > maxBytes && DistinctUrls(cache) && cache != []
    ensures var rest := RemoveAt(cache, FirstMin(cache, le));
            && DistinctUrls(Sort(rest, le))
            && PopLoop(st, path, cache, Sort(cache, le), maxBytes, width, fileSize, evicted)
               == PopLoop(SaveCache(st, path, rest, width, DEFAULT_CAPS, Mixed), path,
                          EvictCache(rest, width, DEFAULT_CAPS, Mixed), Sort(rest, le), maxBytes, width, fileSize,
                          evicted + 1)
  {
    var m := FirstMin(cache, le);
    var rest := RemoveAt(cache, m);
    FirstMinIsSortHead(cache, le);
    FindDistinct(cache, m);
    var queue := Sort(cache, le);
    assert queue[0] == cache[m] && queue[1..] == Sort(rest, le);
    SortMultiset(rest, le);
    MultisetDistinct(rest, Sort(rest, le));
  }

  /** One turn of the loop, for a cache inside the default caps: the popped url is the first least
      entry, and the save evicts nothing. */
  lemma PopTurn(st: Store, path: Path, cache: seq<Entry>, strategy: Strategy, maxBytes: int,
                width: Entry -> nat, fileSize: seq<Entry> -> nat, evicted: nat)
    requires path in st.disk && fileSize(st.disk[path]) > maxBytes
    requires DistinctUrls(cache) && !Over(width, DEFAULT_CAPS)(cache) && cache != []
    ensures var le := PopOrder(strategy);
            var rest := RemoveAt(cache, FirstMin(cache, le));
            && DistinctUrls(rest) && !Over(width, DEFAULT_CAPS)(rest)
            && PopLoop(st, path, cache, Sort(cache, le), maxBytes, width, fileSize, evicted)
               == PopLoop(st.(disk := st.disk[path := OnDisk(rest)]), path, rest, Sort(rest, le), maxBytes,
                          width, fileSize, evicted + 1)
  {
    var m := FirstMin(cache, PopOrder(strategy));
    FirstTurn(st, path, cache, PopOrder(strategy), maxBytes, width, fileSize, evicted);
    FitsShrinks(cache, m, width, DEFAULT_CAPS);
    SaveFits(st, path, RemoveAt(cache, m), width);
  }

  /** The greedy loop with the size of the file on disk as its only cap. */
  ghost function GreedyBySize(st: Store, path: Path, cache: seq<Entry>, strategy: Strategy, maxBytes: int,
                              fileSize: seq<Entry> -> nat, evicted: nat): PopResult
  {
    var left := Evict(cache, PopOrder(strategy), OverFileSize(fileSize, maxBytes));
    PopResult(st.(disk := st.disk[path := OnDisk(left)]), evicted + |cache| - |left|, false)
  }

  lemma GreedyTurn(st: Store, path: Path, cache: seq<Entry>, strategy: Strategy, maxBytes: int,
                   fileSize: seq<Entry> -> nat, evicted: nat)
    requires cache != [] && fileSize(OnDisk(cache)) > maxBytes
    ensures var rest := RemoveAt(cache, FirstMin(cache, PopOrder(strategy)));
            GreedyBySize(st, path, cache, strategy, maxBytes, fileSize, evicted)
            == GreedyBySize(st.(disk := st.disk[path := OnDisk(rest)]), path, rest, strategy, maxBytes,
                            fileSize, evicted + 1)
  {
    var over := OverFileSize(fileSize, maxBytes);
    EvictStep(cache, PopOrder(strategy), over);
    SetTwice(st.disk, path, OnDisk(RemoveAt(cache, FirstMin(cache, PopOrder(strategy)))),
             OnDisk(Evict(cache, PopOrder(strategy), over)));
  }

  lemma SetTwice(disk: map<Path, seq<Entry>>, path: Path, a: seq<Entry>, b: seq<Entry>)
    ensures disk[path := a][path := b] == disk[path := b]
  {
  }

  /** For a cache inside the default caps, pop-from-the-presorted-list is that greedy loop: it raises no
      KeyError, and counts no eviction. */
  lemma {:induction false} PopIsGreedy(st: Store, path: Path, cache: seq<Entry>, strategy: Strategy, maxBytes: int,
                                       width: Entry -> nat, fileSize: seq<Entry> -> nat, evicted: nat)
    requires path in st.disk && st.disk[path] == OnDisk(cache)
    requires DistinctUrls(cache) && !Over(width, DEFAULT_CAPS)(cache)
    ensures PopLoop(st, path, cache, Sort(cache, PopOrder(strategy)), maxBytes, width, fileSize, evicted)
            == GreedyBySize(st, path, cache, strategy, maxBytes, fileSize, evicted)
    decreases |cache|
  {
    var le := PopOrder(strategy);
    if cache != [] && fileSize(st.disk[path]) > maxBytes {
      var rest := RemoveAt(cache, FirstMin(cache, le));
      PopTurn(st, path, cache, strategy, maxBytes, width, fileSize, evicted);
      GreedyTurn(st, path, cache, strategy, maxBytes, fileSize, evicted);
      PopIsGreedy(st.(disk := st.disk[path := OnDisk(rest)]), path, rest, strategy, maxBytes,
                  width, fileSize, evicted + 1);
    } else {
      PopNothing(st, path, cache, strategy, maxBytes, width, fileSize, evicted);
    }
  }

  lemma PopNothing(st: Store, path: Path, cache: seq<Entry>, strategy: Strategy, maxBytes: int,
                   width: Entry -> nat, fileSize: seq<Entry> -> nat, evicted: nat)
    requires path in st.disk && st.disk[path] == OnDisk(cache)
    requires cache == [] || fileSize(st.disk[path]) <= maxBytes
    ensures PopLoop(st, path, cache, Sort(cache, PopOrder(strategy)), maxBytes, width, fileSize, evicted)
            == GreedyBySize(st, path, cache, strategy, maxBytes, fileSize, evicted)
  {
    SortMultiset(cache, PopOrder(strategy));
    assert Evict(cache, PopOrder(strategy), OverFileSize(fileSize, maxBytes)) == cache;
    assert st.disk[path := OnDisk(cache)] == st.disk;
  }

  /** What goes in that loop: under lru nothing fetched later than what stays, under lfu nothing with more
      hits. */
  lemma PoppedByStrategy(cache: seq<Entry>, strategy: Strategy, maxBytes: int, fileSize: seq<Entry> -> nat,
                         x: Entry, y: Entry)
    requires var left := Evict(cache, PopOrder(strategy), OverFileSize(fileSize, maxBytes));
             x in cache && x !in left && y in left
    ensures strategy == Lru ==> x.timestamp <= y.timestamp
    ensures strategy == Lfu ==> x.accessCount <= y.accessCount
  {
    ByKeyIsPreorder(if strategy == Lru then (e: Entry) => Key(0.0, e.timestamp)
                    else (e: Entry) => Key(e.accessCount as real, 0.0));
    EvictedNotAbove(cache, PopOrder(strategy), OverFileSize(fileSize, maxBytes), x, y);
  }

  /** For a file that the program wrote, `evict_lru_over_size` and `evict_lfu_over_size` are that loop. */
  lemma EvictOverSizeIsGreedy(st: Store, base: Path, strategy: Strategy, maxBytes: int,
                              width: Entry -> nat, fileSize: seq<Entry> -> nat)
    requires var path := CacheFileForStrategy(base, strategy);
             path in st.disk && Canonical(st.disk[path]) && !Over(width, DEFAULT_CAPS)(st.disk[path])
    ensures var path := CacheFileForStrategy(base, strategy);
            EvictOverSize(st, base, strategy, maxBytes, width, fileSize)
            == GreedyBySize(st, path, st.disk[path], strategy, maxBytes, fileSize, 0)
  {
    var path := CacheFileForStrategy(base, strategy);
    PopIsGreedy(st, path, st.disk[path], strategy, maxBytes, width, fileSize, 0);
  }

  /** What a save under the default caps leaves on disk is such a file. */
  lemma SavedFileIsCanonical(entries: seq<Entry>, width: Entry -> nat, strategy: Strategy)
    requires DistinctUrls(entries)
    ensures var file := OnDisk(EvictCache(entries, width, DEFAULT_CAPS, strategy));
            Canonical(file) && !Over(width, DEFAULT_CAPS)(file)
  {
    var kept := EvictCache(entries, width, DEFAULT_CAPS, strategy);
    EvictWithin(entries, EvictOrder(strategy), Over(width, DEFAULT_CAPS));
    MultisetDistinct(kept, OnDisk(kept));
    OnDiskIgnoresOrder(kept, OnDisk(kept));
    SortSize(kept, ByUrl(), width);
  }

  // ----- when the loop raises a KeyError

  /** The dict after the urls of `queue` have been popped from it. */
  function Popped(cache: seq<Entry>, queue: seq<Entry>): (r: seq<Entry>)
    decreases |queue|
  {
    if queue == [] then cache
    else
      var i := Find(cache, queue[0].url);
      if i == -1 then cache else Popped(RemoveAt(cache, i), queue[1..])
  }

  /** The loop comes to entry `j` of the list, which the dict does not hold, with the file still too big. */
  ghost predicate ComesToMissing(cache: seq<Entry>, queue: seq<Entry>, j: nat, maxBytes: int,
                                 fileSize: seq<Entry> -> nat)
    requires j < |queue|
  {
    && Find(cache, queue[j].url) == -1
    && forall i :: 0 <= i <= j ==> fileSize(OnDisk(Popped(cache, queue[..i]))) > maxBytes
  }

  ghost predicate MeetsMissing(cache: seq<Entry>, queue: seq<Entry>, maxBytes: int, fileSize: seq<Entry> -> nat)
  {
    exists j: nat :: j < |queue| && ComesToMissing(cache, queue, j, maxBytes, fileSize)
  }

  lemma FindAfterRemove(cache: seq<Entry>, i: nat, url: string)
    requires i < |cache| && cache[i].url != url
    ensures Find(RemoveAt(cache, i), url) == -1 <==> Find(cache, url) == -1
  {
    var rest, k, k' := RemoveAt(cache, i), Find(cache, url), Find(RemoveAt(cache, i), url);
    if k != -1 { assert rest[if k < i then k else k - 1] == cache[k]; }
    if k' != -1 { assert cache[if k' < i then k' else k' + 1] == rest[k']; }
  }

  lemma ComesToMissingNext(cache: seq<Entry>, queue: seq<Entry>, j: nat, maxBytes: int, fileSize: seq<Entry> -> nat)
    requires DistinctUrls(queue) && 0 < j < |queue| && Find(cache, queue[0].url) != -1
    ensures var rest := RemoveAt(cache, Find(cache, queue[0].url));
            ComesToMissing(cache, queue, j, maxBytes, fileSize)
            <==> fileSize(OnDisk(cache)) > maxBytes && ComesToMissing(rest, queue[1..], j - 1, maxBytes, fileSize)
  {
    var rest := RemoveAt(cache, Find(cache, queue[0].url));
    FindAfterRemove(cache, Find(cache, queue[0].url), queue[j].url);
    assert Popped(cache, queue[..0]) == cache;
    forall i | 0 < i <= j ensures Popped(cache, queue[..i]) == Popped(rest, queue[1..][..i - 1]) {
      assert queue[..i][1..] == queue[1..][..i - 1];
    }
    forall i | 0 <= i <= j - 1 ensures Popped(cache, queue[..i + 1]) == Popped(rest, queue[1..][..i]) {}
  }

  lemma MeetsMissingNext(cache: seq<Entry>, queue: seq<Entry>, maxBytes: int, fileSize: seq<Entry> -> nat)
    requires DistinctUrls(queue) && queue != []
    ensures var i := Find(cache, queue[0].url);
            MeetsMissing(cache, queue, maxBytes, fileSize)
            <==> fileSize(OnDisk(cache)) > maxBytes
                 && (i == -1 || MeetsMissing(RemoveAt(cache, i), queue[1..], maxBytes, fileSize))
  {
    var i := Find(cache, queue[0].url);
    assert Popped(cache, queue[..0]) == cache;
    assert ComesToMissing(cache, queue, 0, maxBytes, fileSize) <==> fileSize(OnDisk(cache)) > maxBytes && i == -1;
    if i == -1 {
      if j: nat :| j < |queue| && ComesToMissing(cache, queue, j, maxBytes, fileSize) {
        assert fileSize(OnDisk(Popped(cache, queue[..0]))) > maxBytes;
      }
    } else {
      forall j: nat | 0 < j < |queue|
        ensures ComesToMissing(cache, queue, j, maxBytes, fileSize)
           <==> fileSize(OnDisk(cache)) > maxBytes
                && ComesToMissing(RemoveAt(cache, i), queue[1..], j - 1, maxBytes, fileSize)
      {
        ComesToMissingNext(cache, queue, j, maxBytes, fileSize);
      }
      if j: nat :| j < |queue[1..]| && ComesToMissing(RemoveAt(cache, i), queue[1..], j, maxBytes, fileSize) {
        assert fileSize(OnDisk(cache)) > maxBytes ==> ComesToMissing(cache, queue, j + 1, maxBytes, fileSize);
      }
    }
  }

  /** With a cache inside the default caps every save is a plain write, so the loop raises exactly when
      it meets a missing url. */
  lemma {:induction false} LoopRaisesIff(st: Store, path: Path, cache: seq<Entry>, queue: seq<Entry>, maxBytes: int,
                                         width: Entry -> nat, fileSize: seq<Entry> -> nat, evicted: nat)
    requires path in st.disk && st.disk[path] == OnDisk(cache) && DistinctUrls(queue)
    requires !Over(width, DEFAULT_CAPS)(cache)
    ensures PopLoop(st, path, cache, queue, maxBytes, width, fileSize, evicted).keyError
       <==> MeetsMissing(cache, queue, maxBytes, fileSize)
    decreases |queue|
  {
    if queue != [] {
      MeetsMissingNext(cache, queue, maxBytes, fileSize);
      var i := Find(cache, queue[0].url);
      if i != -1 && fileSize(st.disk[path]) > maxBytes {
        var rest := RemoveAt(cache, i);
        FitsShrinks(cache, i, width, DEFAULT_CAPS);
        SaveFits(st, path, rest, width);
        var st' := SaveCache(st, path, rest, width, DEFAULT_CAPS, Mixed);
        LoopRaisesIff(st', path, rest, queue[1..], maxBytes, width, fileSize, evicted + 1);
      }
    }
  }

  /** The save evicts something exactly when what it is given breaks a cap. */
  lemma SomeVictimIff(s: seq<Entry>, width: Entry -> nat)
    requires DistinctUrls(s) && s != []
    ensures var kept := EvictCache(s, width, DEFAULT_CAPS, Mixed);
            Over(width, DEFAULT_CAPS)(s) <==> exists e :: e in s && Find(kept, e.url) == -1
  {
    var le, over := EvictOrder(Mixed), Over(width, DEFAULT_CAPS);
    var kept := EvictCache(s, width, DEFAULT_CAPS, Mixed);
    if over(s) {
      OverIsOrderBlind(width, DEFAULT_CAPS, le);
      EvictConserves(s, le, over);
      assert over(Sort(s, le)) && Sort(s, le)[0..] == Sort(s, le) by { SortMultiset(s, le); }
      var v := Victims(s, le, over);
      assert v != [];
      EvictedIsGone(s, kept, v);
    } else {
      EvictNothing(s, width, Mixed, DEFAULT_CAPS);
      forall e | e in s ensures Find(s, e.url) != -1 {
        var k :| 0 <= k < |s| && s[k] == e;
      }
    }
  }

  lemma EvictedIsGone(s: seq<Entry>, kept: seq<Entry>, v: seq<Entry>)
    requires DistinctUrls(s) && v != [] && multiset(v) + multiset(kept) == multiset(s)
    ensures v[0] in s && Find(kept, v[0].url) == -1
  {
    var all := [v[0]] + (v[1..] + kept);
    assert v == [v[0]] + v[1..];
    assert multiset(all) == multiset(s);
    MultisetDistinct(s, all);
    assert v[0] in multiset(s);
    assert all[0] == v[0];
    forall k | 0 <= k < |kept| ensures kept[k].url != v[0].url { assert all[|v| + k] == kept[k]; }
  }

  /** When the loop raises, for every cache and every limit: the first save evicted entries (the cache
      breaks a default cap even without its first entry), and the loop comes to one of them while the
      file is still too big. With a limit below every file size it raises exactly when that save evicts. */
  lemma PopRaisesIff(st: Store, path: Path, cache: seq<Entry>, strategy: Strategy, maxBytes: int,
                     width: Entry -> nat, fileSize: seq<Entry> -> nat, evicted: nat)
    requires path in st.disk && st.disk[path] == OnDisk(cache) && DistinctUrls(cache) && cache != []
    ensures var le := PopOrder(strategy);
            var rest := RemoveAt(cache, FirstMin(cache, le));
            var kept := EvictCache(rest, width, DEFAULT_CAPS, Mixed);
            var raises := PopLoop(st, path, cache, Sort(cache, le), maxBytes, width, fileSize, evicted).keyError;
            && (raises <==> fileSize(st.disk[path]) > maxBytes
                               && MeetsMissing(kept, Sort(rest, le), maxBytes, fileSize))
            && (raises ==> Over(width, DEFAULT_CAPS)(rest))
            && ((forall s :: fileSize(s) > maxBytes) ==> (raises <==> Over(width, DEFAULT_CAPS)(rest)))
  {
    var le := PopOrder(strategy);
    var rest := RemoveAt(cache, FirstMin(cache, le));
    var kept := EvictCache(rest, width, DEFAULT_CAPS, Mixed);
    MissingIsVictim(rest, kept, le, maxBytes, width, fileSize);
    if fileSize(st.disk[path]) > maxBytes {
      FirstTurn(st, path, cache, le, maxBytes, width, fileSize, evicted);
      var st' := SaveCache(st, path, rest, width, DEFAULT_CAPS, Mixed);
      LoopRaisesIff(st', path, kept, Sort(rest, le), maxBytes, width, fileSize, evicted + 1);
    }
  }

  lemma MissingIsVictim(rest: seq<Entry>, kept: seq<Entry>, le: (Entry, Entry) -> bool, maxBytes: int,
                        width: Entry -> nat, fileSize: seq<Entry> -> nat)
    requires DistinctUrls(rest) && kept == EvictCache(rest, width, DEFAULT_CAPS, Mixed)
    ensures MeetsMissing(kept, Sort(rest, le), maxBytes, fileSize) ==> Over(width, DEFAULT_CAPS)(rest)
    ensures (forall s :: fileSize(s) > maxBytes) && Over(width, DEFAULT_CAPS)(rest)
            ==> MeetsMissing(kept, Sort(rest, le), maxBytes, fileSize)
  {
    var queue := Sort(rest, le);
    SortMultiset(rest, le);
    if rest != [] {
      SomeVictimIff(rest, width);
      if j: nat :| j < |queue| && ComesToMissing(kept, queue, j, maxBytes, fileSize) {
        assert queue[j] in multiset(queue);
        assert queue[j] in rest;
      }
      if Over(width, DEFAULT_CAPS)(rest) && forall s :: fileSize(s) > maxBytes {
        var e :| e in rest && Find(kept, e.url) == -1;
        assert e in multiset(rest);
        assert e in queue;
        var j: nat :| j < |queue| && queue[j] == e;
        assert ComesToMissing(kept, queue, j, maxBytes, fileSize);
      }
    }
  }
}
