/** Moving one cache file to per-strategy files, splitting it by hit count and merging it back. */
module CacheMigration {
  import opened Ordering
  import opened Eviction
  import opened CacheModel
  import opened CacheStore

  function Part(s: seq<Entry>, threshold: int, frequent: bool): (r: seq<Entry>)
    ensures |r| <= |s|
  {
    if s == [] then []
    else (if (s[0].accessCount >= threshold) == frequent then [s[0]] else []) + Part(s[1..], threshold, frequent)
  }

  /** `d.update(other)` */
  function Update(s: seq<Entry>, other: seq<Entry>): (r: seq<Entry>)
    decreases |other|
  {
    if other == [] then s else Update(Put(s, other[0]), other[1..])
  }

  function SaveIfAny(st: Store, path: Path, entries: seq<Entry>, width: Entry -> nat): Store
  {
    if entries == [] then st else SaveCache(st, path, entries, width, DEFAULT_CAPS, Mixed)
  }

  /** `split_to_per_strategy`; a missing and an empty mixed file are both left alone. */
  function Split(st: Store, base: Path, threshold: int, width: Entry -> nat): (st': Store)
  {
    var entries := Load(st, CacheFileForStrategy(base, Mixed));
    if entries == [] then st
    else
      var st1 := SaveIfAny(st, CacheFileForStrategy(base, Lru), Part(entries, threshold, false), width);
      SaveIfAny(st1, CacheFileForStrategy(base, Lfu), Part(entries, threshold, true), width)
  }

  /** `merge_per_strategy_to_mixed` */
  function Merge(st: Store, base: Path, deleteSources: bool, width: Entry -> nat): (st': Store)
  {
    var lru := Load(st, CacheFileForStrategy(base, Lru));
    var lfu := Load(st, CacheFileForStrategy(base, Lfu));
    if lru == [] && lfu == [] then st
    else
      var st1 := SaveCache(st, CacheFileForStrategy(base, Mixed), Update(lru, lfu), width, DEFAULT_CAPS, Mixed);
      if deleteSources then
        st1.(disk := st1.disk - {CacheFileForStrategy(base, Lru), CacheFileForStrategy(base, Lfu)})
      else st1
  }

  /** `migrate_to_per_strategy_cache`: the mixed file is written directly, under no cap. */
  function Migrate(st: Store, base: Path): (st': Store)
  {
    if CacheFileForStrategy(base, Lru) in st.disk || CacheFileForStrategy(base, Lfu) in st.disk
       || CacheFileForStrategy(base, Mixed) in st.disk || Load(st, base) == [] then st
    else st.(disk := st.disk[CacheFileForStrategy(base, Mixed) := OnDisk(st.disk[base])] - {base})
  }

  /** What `split_to_per_strategy` and `merge_per_strategy_to_mixed` return. */
  datatype SplitReport = SplitReport(split: bool, lru: nat, lfu: nat)
  datatype MergeReport = MergeReport(merged: bool, lru: nat, lfu: nat, total: nat)

  // ----- the two parts

  lemma PartCons(x: Entry, rest: seq<Entry>, threshold: int, frequent: bool)
    ensures Part([x] + rest, threshold, frequent) ==
              if (x.accessCount >= threshold) == frequent then [x] + Part(rest, threshold, frequent)
              else Part(rest, threshold, frequent)
  {
    assert ([x] + rest)[1..] == rest;
  }

  lemma {:induction false} PartsCover(s: seq<Entry>, threshold: int)
    ensures multiset(Part(s, threshold, false)) + multiset(Part(s, threshold, true)) == multiset(s)
  {
    if s != [] {
      var x, rest := s[0], s[1..];
      assert s == [x] + rest;
      PartsCover(rest, threshold);
      PartCons(x, rest, threshold, false);
      PartCons(x, rest, threshold, true);
    }
  }

  lemma {:induction false} PartSize(s: seq<Entry>, threshold: int, frequent: bool, width: Entry -> nat)
    ensures PrintedSize(Part(s, threshold, frequent), width) <= PrintedSize(s, width)
  {
    if s != [] {
      PartSize(s[1..], threshold, frequent, width);
      if (s[0].accessCount >= threshold) == frequent {
        assert Part(s, threshold, frequent)[1..] == Part(s[1..], threshold, frequent);
        assert PrintedSize(Part(s, threshold, frequent), width)
            == 2 + width(s[0]) + PrintedSize(Part(s[1..], threshold, frequent), width);
      } else {
        assert Part(s, threshold, frequent) == Part(s[1..], threshold, frequent);
      }
    }
  }

  lemma {:induction false} PartMembers(s: seq<Entry>, threshold: int, frequent: bool)
    ensures forall e :: e in Part(s, threshold, frequent) <==> e in s && (frequent <==> e.accessCount >= threshold)
  {
    if s != [] {
      PartMembers(s[1..], threshold, frequent);
      assert s == [s[0]] + s[1..];
    }
  }

  /** Inside the default caps the two counts of a split add up: neither save evicts. */
  lemma SplitCounts(s: seq<Entry>, threshold: int, width: Entry -> nat)
    ensures !Over(width, DEFAULT_CAPS)(s) ==>
              |EvictCache(Part(s, threshold, false), width, DEFAULT_CAPS, Mixed)|
              + |EvictCache(Part(s, threshold, true), width, DEFAULT_CAPS, Mixed)| == |s|
  {
    PartsCover(s, threshold);
    assert |Part(s, threshold, false)| + |Part(s, threshold, true)| == |s| by {
      assert |multiset(s)| == |multiset(Part(s, threshold, false))| + |multiset(Part(s, threshold, true))|;
    }
    if !Over(width, DEFAULT_CAPS)(s) {
      PartSize(s, threshold, false, width);
      PartSize(s, threshold, true, width);
      EvictNothing(Part(s, threshold, false), width, Mixed, DEFAULT_CAPS);
      EvictNothing(Part(s, threshold, true), width, Mixed, DEFAULT_CAPS);
    }
  }

  /** The parts share no url, so updating one with the other appends it. */
  lemma {:induction false} UpdateDisjoint(s: seq<Entry>, other: seq<Entry>)
    requires DistinctUrls(s + other)
    ensures Update(s, other) == s + other
    decreases |other|
  {
    if other == [] {
      assert s + other == s;
    } else {
      assert (s + other)[|s|] == other[0];
      forall i | 0 <= i < |s| ensures s[i].url != other[0].url {
        assert (s + other)[i] == s[i];
      }
      assert Put(s, other[0]) == s + [other[0]];
      assert s + [other[0]] + other[1..] == s + other;
      UpdateDisjoint(s + [other[0]], other[1..]);
    }
  }

  lemma PartsDistinct(s: seq<Entry>, threshold: int)
    requires DistinctUrls(s)
    ensures DistinctUrls(OnDisk(Part(s, threshold, false)) + OnDisk(Part(s, threshold, true)))
    ensures multiset(OnDisk(Part(s, threshold, false)) + OnDisk(Part(s, threshold, true))) == multiset(s)
  {
    PartsCover(s, threshold);
    MultisetDistinct(s, OnDisk(Part(s, threshold, false)) + OnDisk(Part(s, threshold, true)));
  }

  /** Counters unchanged, and every file other than the lru and lfu files of `base` as before. */
  ghost predicate OnlyPartsChanged(st: Store, st': Store, base: Path)
  {
    && st' == st.(disk := st'.disk)
    && Others(st', base) == Others(st, base)
  }

  function Others(st: Store, base: Path): map<Path, seq<Entry>>
  {
    st.disk - {CacheFileForStrategy(base, Lru), CacheFileForStrategy(base, Lfu)}
  }

  /** The split may proceed: the mixed file holds entries inside the default caps, and a part that comes
      out empty (whose file is then not written) leaves no old entries behind. */
  ghost predicate Splittable(st: Store, base: Path, threshold: int, width: Entry -> nat)
  {
    var s := Load(st, CacheFileForStrategy(base, Mixed));
    && s != [] && Canonical(s) && !Over(width, DEFAULT_CAPS)(s)
    && (Part(s, threshold, false) == [] ==> Load(st, CacheFileForStrategy(base, Lru)) == [])
    && (Part(s, threshold, true) == [] ==> Load(st, CacheFileForStrategy(base, Lfu)) == [])
  }

  /** After a split, loading the two files gives the two parts; no eviction happened. */
  lemma SplitFiles(st: Store, base: Path, threshold: int, width: Entry -> nat)
    requires Splittable(st, base, threshold, width)
    ensures var s := Load(st, CacheFileForStrategy(base, Mixed));
            var st' := Split(st, base, threshold, width);
            && Load(st', CacheFileForStrategy(base, Lru)) == OnDisk(Part(s, threshold, false))
            && Load(st', CacheFileForStrategy(base, Lfu)) == OnDisk(Part(s, threshold, true))
            && OnlyPartsChanged(st, st', base)
  {
    var s := Load(st, CacheFileForStrategy(base, Mixed));
    var lru, lfu := Part(s, threshold, false), Part(s, threshold, true);
    assert CacheFileForStrategy(base, Lru) != CacheFileForStrategy(base, Lfu) by {
      StrategyFilesDiffer(base, Lru, Lfu);
    }
    assert !Over(width, DEFAULT_CAPS)(lru) by { PartSize(s, threshold, false, width); }
    assert !Over(width, DEFAULT_CAPS)(lfu) by { PartSize(s, threshold, true, width); }
    var st1 := SaveIfAny(st, CacheFileForStrategy(base, Lru), lru, width);
    SaveIfAnyFits(st, CacheFileForStrategy(base, Lru), lru, width);
    SaveIfAnyFits(st1, CacheFileForStrategy(base, Lfu), lfu, width);
    SetTwoFiles(st.disk, CacheFileForStrategy(base, Lru), CacheFileForStrategy(base, Lfu), OnDisk(lru), OnDisk(lfu));
  }

  /** The entries with at least `threshold` hits go to the lfu file, the others to the lru file. */
  lemma SplitSends(st: Store, base: Path, threshold: int, width: Entry -> nat)
    requires Splittable(st, base, threshold, width)
    ensures var s := Load(st, CacheFileForStrategy(base, Mixed));
            var st' := Split(st, base, threshold, width);
            && (forall e :: e in Load(st', CacheFileForStrategy(base, Lfu)) <==> e in s && e.accessCount >= threshold)
            && (forall e :: e in Load(st', CacheFileForStrategy(base, Lru)) <==> e in s && e.accessCount < threshold)
  {
    var s := Load(st, CacheFileForStrategy(base, Mixed));
    SplitFiles(st, base, threshold, width);
    PartMembers(s, threshold, true);
    PartMembers(s, threshold, false);
    OnDiskMembers(Part(s, threshold, true));
    OnDiskMembers(Part(s, threshold, false));
  }

  lemma OnDiskMembers(s: seq<Entry>)
    ensures forall e :: e in OnDisk(s) <==> e in s
  {
    forall e ensures e in OnDisk(s) <==> e in s { assert e in multiset(OnDisk(s)) <==> e in multiset(s); }
  }

  lemma {:induction false} UpdateMembers(s: seq<Entry>, other: seq<Entry>)
    requires DistinctUrls(s) && DistinctUrls(other)
    ensures DistinctUrls(Update(s, other))
    ensures forall e :: e in Update(s, other) <==>
              e in other || (e in s && forall o :: o in other ==> o.url != e.url)
    decreases |other|
  {
    if other != [] {
      var o, rest := other[0], other[1..];
      assert other == [o] + rest;
      assert forall x :: x in rest ==> x.url != o.url by {
        forall x | x in rest ensures x.url != o.url {
          var k :| 0 <= k < |rest| && rest[k] == x;
          assert other[k + 1] == x;
        }
      }
      assert DistinctUrls(rest) by { assert forall i :: 0 <= i < |rest| ==> rest[i] == other[i + 1]; }
      PutMembers(s, o);
      UpdateMembers(Put(s, o), rest);
    }
  }

  lemma MergedFile(st: Store, base: Path, deleteSources: bool, width: Entry -> nat, merged: seq<Entry>)
    requires merged == Update(Load(st, CacheFileForStrategy(base, Lru)), Load(st, CacheFileForStrategy(base, Lfu)))
    requires merged != [] && !Over(width, DEFAULT_CAPS)(merged)
    ensures Load(Merge(st, base, deleteSources, width), CacheFileForStrategy(base, Mixed)) == OnDisk(merged)
  {
    MergeWrites(st, base, deleteSources, width);
    StrategyFilesDiffer(base, Mixed, Lru);
    StrategyFilesDiffer(base, Mixed, Lfu);
  }

  /** After a merge that fits, the mixed file holds every entry of the lfu file, and of the lru file those
      whose url the lfu file does not have. */
  lemma MergePrefersLfu(st: Store, base: Path, deleteSources: bool, width: Entry -> nat,
                        lru: seq<Entry>, lfu: seq<Entry>)
    requires lru == Load(st, CacheFileForStrategy(base, Lru)) && lfu == Load(st, CacheFileForStrategy(base, Lfu))
    requires DistinctUrls(lru) && DistinctUrls(lfu)
    requires Update(lru, lfu) != [] && !Over(width, DEFAULT_CAPS)(Update(lru, lfu))
    ensures forall e :: e in Load(Merge(st, base, deleteSources, width), CacheFileForStrategy(base, Mixed)) <==>
              e in lfu || (e in lru && forall o :: o in lfu ==> o.url != e.url)
  {
    MergedFile(st, base, deleteSources, width, Update(lru, lfu));
    UpdateMembers(lru, lfu);
    OnDiskMembers(Update(lru, lfu));
  }

  /** Writing the file only if there is something to write. */
  function SetIfAny(disk: map<Path, seq<Entry>>, p: Path, s: seq<Entry>): map<Path, seq<Entry>>
  {
    if s == [] then disk else disk[p := s]
  }

  lemma SaveIfAnyFits(st: Store, path: Path, entries: seq<Entry>, width: Entry -> nat)
    requires !Over(width, DEFAULT_CAPS)(entries)
    ensures SaveIfAny(st, path, entries, width) == st.(disk := SetIfAny(st.disk, path, OnDisk(entries)))
  {
    SaveFits(st, path, entries, width);
  }

  lemma SetTwoFiles(disk: map<Path, seq<Entry>>, p: Path, q: Path, a: seq<Entry>, b: seq<Entry>)
    requires p != q
    requires a == [] ==> p !in disk || disk[p] == []
    requires b == [] ==> q !in disk || disk[q] == []
    ensures var disk' := SetIfAny(SetIfAny(disk, p, a), q, b);
            && (if p in disk' then disk'[p] else []) == a
            && (if q in disk' then disk'[q] else []) == b
            && disk' - {p, q} == disk - {p, q}
  {
  }

  /** Loading both parts and updating one with the other yields the split dict, up to order. */
  lemma PartsMerge(s: seq<Entry>, threshold: int, width: Entry -> nat)
    requires s != [] && Canonical(s) && !Over(width, DEFAULT_CAPS)(s)
    ensures var merged := Update(OnDisk(Part(s, threshold, false)), OnDisk(Part(s, threshold, true)));
            OnDisk(merged) == s && !Over(width, DEFAULT_CAPS)(merged) && merged != []
  {
    var lru, lfu := OnDisk(Part(s, threshold, false)), OnDisk(Part(s, threshold, true));
    PartsDistinct(s, threshold);
    UpdateDisjoint(lru, lfu);
    MergedFits(s, lru + lfu, width);
    OnDiskIgnoresOrder(s, lru + lfu);
  }

  lemma MergedFits(s: seq<Entry>, t: seq<Entry>, width: Entry -> nat)
    requires DistinctUrls(s) && multiset(s) == multiset(t) && !Over(width, DEFAULT_CAPS)(s)
    ensures !Over(width, DEFAULT_CAPS)(t)
  {
    OnDiskIgnoresOrder(s, t);
    SortSize(s, ByUrl(), width);
    SortSize(t, ByUrl(), width);
    assert |multiset(s)| == |multiset(t)|;
  }

  /** A merge whose result fits the default caps writes it and nothing else. */
  lemma MergeWrites(st: Store, base: Path, deleteSources: bool, width: Entry -> nat)
    requires var merged := Update(Load(st, CacheFileForStrategy(base, Lru)), Load(st, CacheFileForStrategy(base, Lfu)));
             merged != [] && !Over(width, DEFAULT_CAPS)(merged)
    ensures var merged := Update(Load(st, CacheFileForStrategy(base, Lru)), Load(st, CacheFileForStrategy(base, Lfu)));
            var disk := st.disk[CacheFileForStrategy(base, Mixed) := OnDisk(merged)];
            Merge(st, base, deleteSources, width)
            == st.(disk := if deleteSources then
                             disk - {CacheFileForStrategy(base, Lru), CacheFileForStrategy(base, Lfu)}
                           else disk)
  {
    var merged := Update(Load(st, CacheFileForStrategy(base, Lru)), Load(st, CacheFileForStrategy(base, Lfu)));
    SaveFits(st, CacheFileForStrategy(base, Mixed), merged, width);
  }

  /** Split then merge is the identity on the mixed file, for every threshold, from a mixed file inside
      the default caps; no other file and no counter changes. */
  lemma SplitMergeIdentity(st: Store, base: Path, threshold: int, deleteSources: bool, width: Entry -> nat)
    requires Splittable(st, base, threshold, width)
    ensures var st' := Merge(Split(st, base, threshold, width), base, deleteSources, width);
            && CacheFileForStrategy(base, Mixed) in st'.disk
            && st'.disk[CacheFileForStrategy(base, Mixed)] == Load(st, CacheFileForStrategy(base, Mixed))
            && OnlyPartsChanged(st, st', base)
            && (deleteSources ==>
                  CacheFileForStrategy(base, Lru) !in st'.disk && CacheFileForStrategy(base, Lfu) !in st'.disk)
  {
    var st1 := Split(st, base, threshold, width);
    SplitFiles(st, base, threshold, width);
    MergeOfSplit(st, base, threshold, deleteSources, width);
    Restored(st, st1, base, deleteSources);
  }

  /** Putting the mixed file back, and perhaps removing the two others. */
  lemma Restored(st: Store, st1: Store, base: Path, deleteSources: bool)
    requires OnlyPartsChanged(st, st1, base)
    requires CacheFileForStrategy(base, Mixed) in st.disk
    ensures var p, q := CacheFileForStrategy(base, Lru), CacheFileForStrategy(base, Lfu);
            var m := CacheFileForStrategy(base, Mixed);
            var disk := st1.disk[m := st.disk[m]];
            var st2 := st1.(disk := if deleteSources then disk - {p, q} else disk);
            && m in st2.disk && st2.disk[m] == st.disk[m] && OnlyPartsChanged(st, st2, base)
            && (deleteSources ==> p !in st2.disk && q !in st2.disk)
  {
    var p, q, m := CacheFileForStrategy(base, Lru), CacheFileForStrategy(base, Lfu), CacheFileForStrategy(base, Mixed);
    assert p != m by { StrategyFilesDiffer(base, Lru, Mixed); }
    assert q != m by { StrategyFilesDiffer(base, Lfu, Mixed); }
    PutBack(st.disk, st1.disk, p, q, m, st.disk[m]);
  }

  lemma MergeOfSplit(st: Store, base: Path, threshold: int, deleteSources: bool, width: Entry -> nat)
    requires Splittable(st, base, threshold, width)
    ensures var st1 := Split(st, base, threshold, width);
            var disk := st1.disk[CacheFileForStrategy(base, Mixed) := Load(st, CacheFileForStrategy(base, Mixed))];
            Merge(st1, base, deleteSources, width)
            == st1.(disk := if deleteSources then
                              disk - {CacheFileForStrategy(base, Lru), CacheFileForStrategy(base, Lfu)}
                            else disk)
  {
    SplitFiles(st, base, threshold, width);
    PartsMerge(Load(st, CacheFileForStrategy(base, Mixed)), threshold, width);
    MergeWrites(Split(st, base, threshold, width), base, deleteSources, width);
  }

  lemma PutBack(before: map<Path, seq<Entry>>, after: map<Path, seq<Entry>>, p: Path, q: Path, m: Path, s: seq<Entry>)
    requires p != m && q != m && m in before && before[m] == s && after - {p, q} == before - {p, q}
    ensures after[m := s] - {p, q} == before - {p, q}
    ensures after[m := s] - {p, q} - {p, q} == before - {p, q}
  {
    assert m in before - {p, q};
  }

  lemma MigrateWrites(st: Store, base: Path)
    requires base in st.disk && Canonical(st.disk[base]) && st.disk[base] != []
    requires forall s: Strategy :: CacheFileForStrategy(base, s) !in st.disk
    ensures Migrate(st, base) == st.(disk := (st.disk - {base})[CacheFileForStrategy(base, Mixed) := st.disk[base]])
    ensures CacheFileForStrategy(base, Mixed) != base
  {
    var mixed := CacheFileForStrategy(base, Mixed);
    assert CacheFileForStrategy(base, Lru) !in st.disk && CacheFileForStrategy(base, Lfu) !in st.disk
           && mixed !in st.disk;
    assert |mixed.stem| > |base.stem|;
    assert st.disk[mixed := st.disk[base]] - {base} == (st.disk - {base})[mixed := st.disk[base]];
  }

  /** Migrating the single file, splitting it and merging it back with the sources deleted moves the
      file to its mixed name and changes nothing else. */
  lemma MigrateSplitMerge(st: Store, base: Path, threshold: int, width: Entry -> nat)
    requires base in st.disk && Canonical(st.disk[base]) && st.disk[base] != []
    requires !Over(width, DEFAULT_CAPS)(st.disk[base])
    requires forall s: Strategy :: CacheFileForStrategy(base, s) !in st.disk
    ensures Merge(Split(Migrate(st, base), base, threshold, width), base, true, width)
         == st.(disk := (st.disk - {base})[CacheFileForStrategy(base, Mixed) := st.disk[base]])
  {
    var st1 := Migrate(st, base);
    MigrateWrites(st, base);
    StrategyFilesDiffer(base, Lru, Mixed);
    StrategyFilesDiffer(base, Lfu, Mixed);
    assert CacheFileForStrategy(base, Lru) !in st1.disk && CacheFileForStrategy(base, Lfu) !in st1.disk;
    SplitMergeIdentity(st1, base, threshold, true, width);
    SameStore(st1, Merge(Split(st1, base, threshold, width), base, true, width), base);
  }

  lemma SameStore(a: Store, b: Store, base: Path)
    requires OnlyPartsChanged(a, b, base)
    requires CacheFileForStrategy(base, Lru) !in a.disk && CacheFileForStrategy(base, Lfu) !in a.disk
    requires CacheFileForStrategy(base, Lru) !in b.disk && CacheFileForStrategy(base, Lfu) !in b.disk
    ensures a == b
  {
    assert Others(a, base) == a.disk && Others(b, base) == b.disk;
  }
}
