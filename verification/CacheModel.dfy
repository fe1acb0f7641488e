/** The URL-validity cache as values: entries, eviction keys, the printed size, the caps. A Python dict
    is the sequence of its entries in insertion order; an entry carries its own key, `url`. */
module CacheModel {
  import opened Ordering
  import opened Eviction
  import opened LfuScore
  import Text

  datatype Issue = Issue(rule: string, severity: string, message: string)
  datatype Entry = Entry(url: string, timestamp: real, issues: seq<Issue>, accessCount: int)
  datatype Strategy = Lru | Lfu | Mixed

  /** Eviction keys are Python tuples, compared lexicographically. */
  datatype Key = Key(first: real, second: real)

  predicate KeyLe(a: Key, b: Key)
  {
    a.first < b.first || (a.first == b.first && a.second <= b.second)
  }

  function ByKey(key: Entry -> Key): (Entry, Entry) -> bool
  {
    (a, b) => KeyLe(key(a), key(b))
  }

  lemma ByKeyIsPreorder(key: Entry -> Key)
    ensures TotalPreorder(ByKey(key))
  {
  }

  /** `_evict_key`: lru looks only at the fetch time, the other two at (hits, fetch time). */
  function EvictKey(strategy: Strategy): Entry -> Key
  {
    if strategy.Lru? then (e: Entry) => Key(0.0, e.timestamp)
    else (e: Entry) => Key(e.accessCount as real, e.timestamp)
  }

  function EvictOrder(strategy: Strategy): (Entry, Entry) -> bool { ByKey(EvictKey(strategy)) }

  /** The clock readings of `save_cache_with_lfu`: one for every entry in every pass. */
  type Clock = (nat, Entry) -> real

  /** `_evict_key_with_lfu` in pass `n`. */
  function LfuKey(cfg: LfuConfig, clock: Clock, n: nat): Entry -> Key
    requires cfg.decaySeconds != 0.0
  {
    (e: Entry) => Key(ComputeLfuScore(e.accessCount, clock(n, e) - e.timestamp, cfg), e.timestamp)
  }

  function LfuOrder(cfg: LfuConfig, clock: Clock, n: nat): (Entry, Entry) -> bool
    requires cfg.decaySeconds != 0.0
  {
    ByKey(LfuKey(cfg, clock, n))
  }

  // ----- dict operations

  ghost predicate DistinctUrls(s: seq<Entry>)
  {
    forall i, j :: 0 <= i < j < |s| ==> s[i].url != s[j].url
  }

  /** Position of `url`, or -1. */
  function Find(s: seq<Entry>, url: string): (i: int)
    ensures -1 <= i < |s|
    ensures i >= 0 ==> s[i].url == url
    ensures i == -1 ==> forall j :: 0 <= j < |s| ==> s[j].url != url
  {
    if s == [] then -1
    else if s[0].url == url then 0
    else
      var i := Find(s[1..], url);
      assert forall j :: 0 < j < |s| ==> s[j] == s[1..][j - 1];
      if i == -1 then -1 else i + 1
  }

  /** `entries[e.url] = e`: overwrite in place or append. */
  function Put(s: seq<Entry>, e: Entry): (r: seq<Entry>)
    ensures DistinctUrls(s) ==> DistinctUrls(r)
    ensures |r| == if Find(s, e.url) == -1 then |s| + 1 else |s|
  {
    var i := Find(s, e.url);
    if i == -1 then s + [e] else s[i := e]
  }

  lemma PutMembers(s: seq<Entry>, e: Entry)
    requires DistinctUrls(s)
    ensures forall x :: x in Put(s, e) <==> x == e || (x in s && x.url != e.url)
  {
    var i, r := Find(s, e.url), Put(s, e);
    forall x ensures x in r <==> x == e || (x in s && x.url != e.url) {
      if x in r && x != e {
        var j :| 0 <= j < |r| && r[j] == x;
        assert s[j] == x;
      }
      if x in s && x.url != e.url {
        var j :| 0 <= j < |s| && s[j] == x;
        assert r[j] == x;
      }
      assert r[if i == -1 then |s| else i] == e;
    }
  }

  // ----- the printed size and the caps

  /** Length of `json.dumps(raw, indent=2, sort_keys=True)`: "{}" when empty, otherwise two braces with
      a newline each and the entries separated by ",\n". `width(e)` is the printed length of an entry. */
  function PrintedSize(s: seq<Entry>, width: Entry -> nat): (n: nat)
  {
    if s == [] then 2 else 2 + width(s[0]) + PrintedSize(s[1..], width)
  }

  /** The file as it is printed: `text(e)` is the entry `e` with its key, indented. */
  function Printed(s: seq<Entry>, text: Entry -> string): string
  {
    if s == [] then "{}" else "{\n" + Text.Join(Texts(s, text), ",\n") + "\n}"
  }

  function Texts(s: seq<Entry>, text: Entry -> string): (r: seq<string>)
    ensures |r| == |s|
  {
    if s == [] then [] else [text(s[0])] + Texts(s[1..], text)
  }

  lemma {:induction false} JoinedLength(s: seq<Entry>, text: Entry -> string, width: Entry -> nat, sep: string)
    requires s != [] && |sep| == 2 && forall e :: width(e) == |text(e)|
    ensures |Text.Join(Texts(s, text), sep)| + 4 == PrintedSize(s, width)
  {
    if |s| > 1 {
      JoinedLength(s[1..], text, width, sep);
      assert Texts(s, text)[1..] == Texts(s[1..], text);
    } else {
      assert s[1..] == [];
    }
  }

  /** The size that the loops compare with the cap is the length of the printed file. */
  lemma PrintedSizeIsLength(s: seq<Entry>, text: Entry -> string, width: Entry -> nat)
    requires forall e :: width(e) == |text(e)|
    ensures PrintedSize(s, width) == |Printed(s, text)|
  {
    if s != [] { JoinedLength(s, text, width, ",\n"); }
  }

  datatype Caps = Caps(maxBytes: int, maxEntries: int)

  const DEFAULT_CAPS := Caps(10 * 1024 * 1024, 10000)

  function Over(width: Entry -> nat, caps: Caps): seq<Entry> -> bool
  {
    s => PrintedSize(s, width) > caps.maxBytes || |s| > caps.maxEntries
  }

  function OverBytes(width: Entry -> nat, maxBytes: int): seq<Entry> -> bool
  {
    s => PrintedSize(s, width) > maxBytes
  }

  function OverCount(maxEntries: int): seq<Entry> -> bool
  {
    s => |s| > maxEntries
  }

  lemma {:induction false} InsertSize(e: Entry, s: seq<Entry>, le: (Entry, Entry) -> bool, width: Entry -> nat)
    ensures PrintedSize(Insert(e, s, le), width) == 2 + width(e) + PrintedSize(s, width)
  {
    if s == [] || le(e, s[0]) {
      assert ([e] + s)[1..] == s;
    } else {
      InsertSize(e, s[1..], le, width);
      var r := Insert(e, s, le);
      assert r[0] == s[0] && r[1..] == Insert(e, s[1..], le);
    }
  }

  /** Printing sorts the keys, so the size does not depend on the dict order. */
  lemma {:induction false} SortSize(s: seq<Entry>, le: (Entry, Entry) -> bool, width: Entry -> nat)
    ensures PrintedSize(Sort(s, le), width) == PrintedSize(s, width)
  {
    if s != [] {
      SortSize(s[1..], le, width);
      InsertSize(s[0], Sort(s[1..], le), le, width);
    }
  }

  lemma {:induction false} RemoveSize(s: seq<Entry>, i: nat, width: Entry -> nat)
    requires i < |s|
    ensures PrintedSize(s, width) == PrintedSize(RemoveAt(s, i), width) + 2 + width(s[i])
  {
    if i == 0 {
      assert RemoveAt(s, 0) == s[1..];
    } else {
      RemoveSize(s[1..], i - 1, width);
      var r := RemoveAt(s, i);
      assert r[0] == s[0] && r[1..] == RemoveAt(s[1..], i - 1);
    }
  }

  lemma OverIsOrderBlind(width: Entry -> nat, caps: Caps, le: (Entry, Entry) -> bool)
    ensures OrderBlind(Over(width, caps), le)
  {
    forall s: seq<Entry> ensures Over(width, caps)(Sort(s, le)) == Over(width, caps)(s) {
      SortSize(s, le, width);
      SortMultiset(s, le);
    }
  }

  lemma CapsShrink(width: Entry -> nat, caps: Caps)
    ensures Shrinking(Over(width, caps))
    ensures Shrinking(OverCount(caps.maxEntries))
    ensures Shrinking(OverBytes(width, caps.maxBytes))
  {
    forall s: seq<Entry>, i | 0 <= i < |s|
      ensures PrintedSize(RemoveAt(s, i), width) <= PrintedSize(s, width)
    {
      RemoveSize(s, i, width);
    }
  }

  // ----- the eviction loop of `_save_cache` and its three relatives

  function EvictCache(s: seq<Entry>, width: Entry -> nat, caps: Caps, strategy: Strategy): (r: seq<Entry>)
    ensures r == [] || !Over(width, caps)(r)
    ensures |r| <= |s|
  {
    Evict(s, EvictOrder(strategy), Over(width, caps))
  }

  /** `_save_cache` = stable sort by the strategy's key, drop the shortest prefix that meets both caps;
      the victims are the dropped prefix, none keyed above a survivor, and dropping fewer is not enough. */
  lemma SaveEvictsShortestPrefix(s: seq<Entry>, width: Entry -> nat, caps: Caps, strategy: Strategy)
    ensures var le := EvictOrder(strategy);
            var r := EvictCache(s, width, caps, strategy);
            var v := Victims(s, le, Over(width, caps));
            && StableSortOf(v + Sort(r, le), s, le)
            && Subsequence(r, s)
            && (forall x, y :: x in v && y in r ==> KeyLe(EvictKey(strategy)(x), EvictKey(strategy)(y)))
            && (forall j :: 0 <= j < |v| ==> Over(width, caps)(v[j..] + Sort(r, le)))
  {
    var le := EvictOrder(strategy);
    var over := Over(width, caps);
    ByKeyIsPreorder(EvictKey(strategy));
    OverIsOrderBlind(width, caps, le);
    EvictConserves(s, le, over);
    EvictGuarantees(s, le, over);
    EvictKeepsOrder(s, le, over);
    SortIsStable(s, le);
    forall x, y | x in Victims(s, le, over) && y in Evict(s, le, over)
      ensures KeyLe(EvictKey(strategy)(x), EvictKey(strategy)(y))
    {
      assert le(x, y);
    }
  }

  /** What the strategies are for: under lru nothing older is kept while something fetched later goes; under
      the other two no entry with more hits goes before one with fewer, and among equals the older goes. */
  lemma VictimsByStrategy(s: seq<Entry>, width: Entry -> nat, caps: Caps, strategy: Strategy, x: Entry, y: Entry)
    requires x in s && x !in EvictCache(s, width, caps, strategy) && y in EvictCache(s, width, caps, strategy)
    ensures strategy == Lru ==> x.timestamp <= y.timestamp
    ensures strategy == Lfu || strategy == Mixed ==>
              x.accessCount < y.accessCount || (x.accessCount == y.accessCount && x.timestamp <= y.timestamp)
  {
    ByKeyIsPreorder(EvictKey(strategy));
    EvictedNotAbove(s, EvictOrder(strategy), Over(width, caps), x, y);
  }

  /** A save leaves a dict that meets both caps, or none of it, and does not touch one that meets them. */
  lemma SaveMeetsCaps(s: seq<Entry>, width: Entry -> nat, caps: Caps, strategy: Strategy)
    ensures var r := EvictCache(s, width, caps, strategy);
            && (r == [] || (PrintedSize(r, width) <= caps.maxBytes && |r| <= caps.maxEntries))
            && (PrintedSize(s, width) <= caps.maxBytes && |s| <= caps.maxEntries ==> r == s)
  {
    if !Over(width, caps)(s) {
      assert EvictCache(s, width, caps, strategy) == s;
    }
  }

  /** Putting the last victim back anywhere among the survivors breaks a cap: the loop stops as soon
      as it can. */
  lemma LastVictimDoesNotFit(s: seq<Entry>, width: Entry -> nat, caps: Caps, strategy: Strategy)
    requires Victims(s, EvictOrder(strategy), Over(width, caps)) != []
    ensures var v := Victims(s, EvictOrder(strategy), Over(width, caps));
            var r := EvictCache(s, width, caps, strategy);
            forall at: nat :: at <= |r| ==> Over(width, caps)(r[..at] + [v[|v| - 1]] + r[at..])
  {
    var v, r := Victims(s, EvictOrder(strategy), Over(width, caps)), EvictCache(s, width, caps, strategy);
    var x := v[|v| - 1];
    LastVictimInFront(s, width, caps, strategy);
    forall at: nat | at <= |r| ensures Over(width, caps)(r[..at] + [x] + r[at..]) {
      OverWherever(r, x, at, EvictOrder(strategy), width, caps);
    }
  }

  lemma LastVictimInFront(s: seq<Entry>, width: Entry -> nat, caps: Caps, strategy: Strategy)
    requires Victims(s, EvictOrder(strategy), Over(width, caps)) != []
    ensures var v := Victims(s, EvictOrder(strategy), Over(width, caps));
            Over(width, caps)([v[|v| - 1]] + Sort(EvictCache(s, width, caps, strategy), EvictOrder(strategy)))
  {
    var v := Victims(s, EvictOrder(strategy), Over(width, caps));
    SaveEvictsShortestPrefix(s, width, caps, strategy);
    assert v[|v| - 1..] == [v[|v| - 1]];
  }

  /** Caps look at sizes, so it does not matter where an entry stands. */
  lemma OverWherever(r: seq<Entry>, x: Entry, at: nat, le: (Entry, Entry) -> bool, width: Entry -> nat, caps: Caps)
    requires at <= |r| && Over(width, caps)([x] + Sort(r, le))
    ensures Over(width, caps)(r[..at] + [x] + r[at..])
  {
    SortSize(r, le, width);
    SortMultiset(r, le);
    ReaddSize(Sort(r, le), x, 0, width);
    assert Sort(r, le)[..0] + [x] + Sort(r, le)[0..] == [x] + Sort(r, le);
    ReaddSize(r, x, at, width);
  }

  lemma ReaddSize(r: seq<Entry>, x: Entry, at: nat, width: Entry -> nat)
    requires at <= |r|
    ensures var q := r[..at] + [x] + r[at..];
            |q| == |r| + 1 && PrintedSize(q, width) == PrintedSize(r, width) + 2 + width(x)
  {
    var q := r[..at] + [x] + r[at..];
    assert RemoveAt(q, at) == r;
    RemoveSize(q, at, width);
  }

  /** `save_cache_lfu_decay_full`: count phase, then size phase, on scores computed once up front.
      For any scores it leaves what the single loop with the disjunctive guard leaves. */
  function EvictTwoPhase(s: seq<Entry>, width: Entry -> nat, caps: Caps, scores: map<string, real>): (r: seq<Entry>)
  {
    Evict(Evict(s, ScoreOrder(scores), OverCount(caps.maxEntries)), ScoreOrder(scores), OverBytes(width, caps.maxBytes))
  }

  /** `key=lambda u: scores.get(u, 0.0)` */
  function ScoreKey(scores: map<string, real>): Entry -> Key
  {
    (e: Entry) => Key(if e.url in scores then scores[e.url] else 0.0, 0.0)
  }

  function ScoreOrder(scores: map<string, real>): (Entry, Entry) -> bool { ByKey(ScoreKey(scores)) }

  lemma TwoPhaseSaveIsOnePhase(s: seq<Entry>, width: Entry -> nat, caps: Caps, scores: map<string, real>)
    ensures EvictTwoPhase(s, width, caps, scores) == Evict(s, ScoreOrder(scores), Over(width, caps))
  {
    CapsShrink(width, caps);
    var a, b := OverCount(caps.maxEntries), OverBytes(width, caps.maxBytes);
    TwoPhaseIsOnePhase(s, ScoreOrder(scores), a, b);
    EvictSameGuard(s, ScoreOrder(scores), x => a(x) || b(x), Over(width, caps));
  }

  lemma {:induction false} EvictSameGuard<T(!new)>(s: seq<T>, le: (T, T) -> bool, f: seq<T> -> bool, g: seq<T> -> bool)
    requires forall x :: f(x) == g(x)
    ensures Evict(s, le, f) == Evict(s, le, g)
    decreases |s|
  {
    if s != [] && f(s) {
      EvictSameGuard(RemoveAt(s, FirstMin(s, le)), le, f, g);
    }
  }

  /** `save_cache_with_lfu`: the composite score is recomputed in every pass from new clock readings. */
  function EvictWithLfu(s: seq<Entry>, width: Entry -> nat, caps: Caps, cfg: LfuConfig, clock: Clock): (r: seq<Entry>)
    requires cfg.decaySeconds != 0.0
  {
    EvictClocked(s, n => LfuOrder(cfg, clock, n), Over(width, caps), 0)
  }

  /** The composite key at work: an entry that went had, in the pass that took it, no greater score than any
      entry that stayed, and at the same score no later fetch. What is left meets both caps. */
  lemma LfuVictims(s: seq<Entry>, width: Entry -> nat, caps: Caps, cfg: LfuConfig, clock: Clock, x: Entry, y: Entry)
    returns (n: nat)
    requires cfg.decaySeconds != 0.0
    requires x in s && x !in EvictWithLfu(s, width, caps, cfg, clock) && y in EvictWithLfu(s, width, caps, cfg, clock)
    ensures var p, q := ComputeLfuScore(x.accessCount, clock(n, x) - x.timestamp, cfg),
                        ComputeLfuScore(y.accessCount, clock(n, y) - y.timestamp, cfg);
            p < q || (p == q && x.timestamp <= y.timestamp)
    ensures var r := EvictWithLfu(s, width, caps, cfg, clock);
            PrintedSize(r, width) <= caps.maxBytes && |r| <= caps.maxEntries
  {
    var le := (k: nat) => LfuOrder(cfg, clock, k);
    forall k: nat ensures TotalPreorder(le(k)) {
      ByKeyIsPreorder(LfuKey(cfg, clock, k));
    }
    n := ClockedNotAbove(s, le, Over(width, caps), 0, x, y);
    ClockedFits(s, le, Over(width, caps), 0);
    assert le(n)(x, y);
  }

  /** The scores at work in the two loops. */
  lemma ScoreVictims(s: seq<Entry>, width: Entry -> nat, caps: Caps, scores: map<string, real>, x: Entry, y: Entry)
    requires x in s && x.url in scores && y.url in scores
    requires x !in EvictTwoPhase(s, width, caps, scores) && y in EvictTwoPhase(s, width, caps, scores)
    ensures scores[x.url] <= scores[y.url]
  {
    TwoPhaseSaveIsOnePhase(s, width, caps, scores);
    ByKeyIsPreorder(ScoreKey(scores));
    EvictedNotAbove(s, ScoreOrder(scores), Over(width, caps), x, y);
  }

  /** An entry with no more hits and a strictly older fetch time than another is never kept while the
      other is evicted, as long as no pass spreads its readings for the two by more than they differ in
      fetch time: then the older one is the older one in every pass. */
  lemma CompositeScoreDominance(s: seq<Entry>, width: Entry -> nat, caps: Caps, cfg: LfuConfig, clock: Clock,
                                x: Entry, y: Entry)
    requires 0.0 <= cfg.frequencyWeight && 0.0 <= cfg.recencyWeight && 0.0 < cfg.decaySeconds
    requires y in s && 0 <= y.accessCount
    requires x.accessCount <= y.accessCount && x.timestamp < y.timestamp
    requires forall n :: clock(n, y) - clock(n, x) <= y.timestamp - x.timestamp
    ensures x in EvictWithLfu(s, width, caps, cfg, clock) ==> y in EvictWithLfu(s, width, caps, cfg, clock)
  {
    var le := (n: nat) => LfuOrder(cfg, clock, n);
    forall n: nat ensures TotalPreorder(le(n)) && !le(n)(y, x) {
      ByKeyIsPreorder(LfuKey(cfg, clock, n));
      ScoreMonotone(x.accessCount, y.accessCount, clock(n, x) - x.timestamp, clock(n, y) - y.timestamp, cfg);
    }
    if x in EvictWithLfu(s, width, caps, cfg, clock) {
      DominatedGoesFirst(s, le, Over(width, caps), 0, x, y);
    }
  }
}
