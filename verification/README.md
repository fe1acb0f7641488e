# Verified model of the AI workflow kit

A Dafny 4.11 model of the parts of the Python workflow kit that carry state, concurrency or a
transformation, with proofs about every input, every run and every interleaving. `dafny verify dfyconfig.toml`
checks the whole project.

The kit is modelled in six groups.

* **The URL-validity cache.** `Ordering` and `Eviction` hold the theory of the greedy "delete the minimum until
  it fits" loop; `LfuScore`, `CacheModel`, `CacheStore` and `CacheMigration` say what each cache operation does to
  the files on disk and to the eviction counters; class `UrlCache.CacheModule` runs the loops and is proved against
  those functions; `CacheHistory` is about whole runs of operations; `CacheLock` is the file lock as a machine
  over the interleaved steps of any number of processes.
* **The robust patcher.** `PatchParser` (the three-state block parser), `FuzzyFind` (the sliding-window search),
  `RobustPatch` (splicing, and undoing a patch with its swapped patch).
* **Crash-safe writes.** `AtomicWrite` and `Ingest` are machines whose steps interleave, fail and are cut off by
  crashes, and classes that run the same steps once.
* **Printers and parsers.** `Frontmatter` (the OKF serializer and the small YAML reader), `SemanticUrl`
  (commit-pinned URLs with hash and range, and the reader of such URLs).
* **The schema inliner.** `SchemaInliner` (termination, reference-freedom), `SchemaMeaning` (a validator with every
  keyword of draft-07 that holds schemas, and that inlining keeps its verdicts), `SchemaReference` (what a reference
  means by RFC 6901).
* **The upgrader.** `Gitignore` (the managed block), `VersionMarker` (stamping, finding and comparing markers),
  `Upgrade` (the decision for each file and the tree after a run).

`Text` holds the string operations of Python that the rest relies on, `Options` an option type.

Conventions: a dict is the sequence of its entries in insertion order with distinct keys, because Python's `min`
and `sorted` break ties by it; a float is a real; a clock is a value given with each call; a file system is a map
from paths to contents. An exception or an error return is a value of the result. What the program calls but the
model does not contain is a parameter: the online URL check, `SequenceMatcher.ratio`, whether a Python text
compiles, SHA-256, the printed length of a cache entry, the size of a file on disk.

## Where the code and its documentation differ

The model follows the code. Each point is a lemma below.

* The `.gitignore` block is called idempotent; a file in which an END marker precedes the first START marker is
  rewritten, and grows, on every run (`Gitignore.SettlesIff`, `Gitignore.StrayEndNeverSettles`). Text after a START marker that
  is never closed is lost on the second run (`Gitignore.GoodSettlesInTwo`).
* `ingest` promises all or none; files are replaced one by one (`Ingest.IngestIsAtomicIff`). Its lock is looked for
  and then created, in two steps: callers exclude each other exactly when none of them touches a lock file that
  appeared in between (`Ingest.ExclusiveIffRaceFree`), and two can meet inside (`Ingest.TestThenTouchLetsTwoIn`). The
  lock is never removed after a crash (`Ingest.CrashBlocksForever`).
* The cache lock lets a process through after its timeout (`CacheLock.TimeoutLosesAHit`) and unlinks lock files it takes
  for stale (`CacheLock.StaleUnlinkLetsTwoIn`). Exactly when it excludes is `CacheLock.ExclusiveIffNoIntrusion`, and
  while no lock file in use is unlinked `CacheLock.ExclusiveIffNoMeeting`. Whenever it does, no hit is lost
  (`CacheLock.NoHitIsLost`).
* `cache_prune` subtracts the removed entries twice in the `kept` of a real run (`UrlCache.PruneReportHonestIff`).
* `evict_lru_over_size` and `evict_lfu_over_size` can raise a KeyError, because the save inside their loop evicts as
  well (`CacheStore.PopRaisesIff` says exactly when).
* The "lru" key is the fetch time; a hit does not refresh it (`CacheModel.EvictKey`, `CacheHistory.EntriesAccounted`).
* The list of applied blocks is said to be as long as the block list; it is exactly when no block fails or the last
  one is the first to fail (`RobustPatch.SourceFile.ApplyRobustPatchDetailed`).
* A commit SHA with uppercase digits is accepted and emitted but not read back (`SemanticUrl.RoundTripIff`).
* The inliner also rewrites a `const`: its meaning stays exactly when it holds nothing shaped like a known reference
  (`SchemaMeaning.ConstSurvivesIff`). It leaves a reference behind exactly when a reachable definition is a bare string
  that names a definition (`SchemaInliner.AlwaysRefFreeIff`). It looks at the last segment of a reference only, so
  every reference but a literal name in `$defs` is misread in some document (`SchemaReference.OnlyDefsAgree`).
* "Refusing to downgrade" ignores a fourth version number (`Upgrade.HotfixDowngradeOverwrites`), all unknown
  pre-releases share one rank between the candidates and `final` (`VersionMarker.StagesInOrder`, `VersionMarker.StagesTie`), and `--force` overwrites nothing when the target
  already has the kit's version (`Upgrade.ForceOverwritesIff`).

## Model

| member | source | states |
|---|---|---|
| Ordering.SelectMin | ai-workflow/workflow_kit/url_validity.py:987 | `min(keys, key=...)` is the first least element: a later key wins only if it is strictly smaller |
| Ordering.SortIsStable | ai-workflow/workflow_kit/cache_size_compare.py:70-73 | `sorted` as modelled is ordered, a permutation, and keeps the order of equal keys |
| Ordering.StableSortUnique | ai-workflow/workflow_kit/cache_size_compare.py:70-73 | any two computations with that promise agree, so the sort algorithm does not matter |
| Ordering.FirstMinIsSortHead | ai-workflow/workflow_kit/cache_size_compare.py:70-80 | taking the first minimum out of a dict peels the head off its stable sort |
| Eviction.EvictIsSortAndCut | ai-workflow/workflow_kit/url_validity.py:986-988 | for every key and cap test: deleting the minimum while over a cap leaves the stable sort less the shortest prefix that fits |
| Eviction.EvictConserves | ai-workflow/workflow_kit/url_validity.py:986-988 | victims and survivors together are exactly the entries there were |
| Eviction.EvictGuarantees | ai-workflow/workflow_kit/url_validity.py:986-988 | survivors fit or none is left; no survivor is keyed below a victim; putting the last victims back breaks a cap |
| Eviction.EvictKeepsOrder | ai-workflow/workflow_kit/url_validity.py:986-988 | survivors keep the dict's order |
| Eviction.TwoPhaseIsOnePhase | ai-workflow/workflow_kit/cache_lfu_decay.py:153-183 | a loop on the count cap followed by one on the size cap leaves the same survivors as one loop on either cap |
| Eviction.DominatedGoesFirst | ai-workflow/workflow_kit/lfu_integration.py:66-78 | keys that change from pass to pass: an element always below another is never kept while the other goes |
| LfuScore.ScoreMonotone | ai-workflow/workflow_kit/lfu_config.py:43-47 | with nonnegative weights and a positive decay the score rises with the hits and falls with the age |
| LfuScore.ScoreOfFresh | ai-workflow/workflow_kit/lfu_config.py:43-47 | inside the first second and the first decay period the score is frequency weight times hits plus recency weight |
| LfuScore.ScoreOfAged | ai-workflow/workflow_kit/lfu_config.py:43-47 | from then on, n decay periods old, it is frequency weight times hits over n plus recency weight over the age in seconds |
| LfuScore.DecayScoreMonotone | ai-workflow/workflow_kit/lfu_config.py:50-83 | so does the score with temporal decay, also for entries from the future and where a bad half-life makes the hit count stand in, for every way of fading that never grows |
| LfuScore.DecayScoreHalves | ai-workflow/workflow_kit/lfu_config.py:73-83 | one half-life old an entry scores like one with half its hits, an entry from the future like a new one, and without a usable half-life by its hits alone |
| CacheModel.SaveEvictsShortestPrefix | ai-workflow/workflow_kit/url_validity.py:974-1006 | `_save_cache` under each strategy is "sort by its key, drop the shortest prefix that meets both caps" |
| CacheModel.VictimsByStrategy | ai-workflow/workflow_kit/url_validity.py:977-988 | of an evicted and a kept entry: under lru the evicted one was fetched no later; under lfu and mixed it has fewer hits, or as many and was fetched no later |
| CacheModel.SaveMeetsCaps | ai-workflow/workflow_kit/url_validity.py:986-1006 | what a save leaves meets both caps or is empty, and a dict that meets them is left alone |
| CacheModel.PrintedSizeIsLength | ai-workflow/workflow_kit/url_validity.py:974-975 | the size compared with the cap is the length of the printed dict: its entries between braces, separated as `json.dumps` separates them |
| CacheModel.LastVictimDoesNotFit | ai-workflow/workflow_kit/url_validity.py:986-1006 | the last victim does not fit back anywhere among the survivors |
| CacheModel.TwoPhaseSaveIsOnePhase | ai-workflow/workflow_kit/cache_lfu_decay.py:139-183 | on precomputed scores the two-loop save keeps what one loop with both caps keeps |
| CacheModel.CompositeScoreDominance | ai-workflow/workflow_kit/lfu_integration.py:24-78 | an entry with no more hits and an older fetch than another is never kept while the other is evicted, the clock being read for every entry in every pass, as long as no pass reads it further apart for the two than their fetch times lie |
| CacheModel.LfuVictims | ai-workflow/workflow_kit/lfu_integration.py:24-78 | an evicted entry had, in the pass that took it, a lower composite score than any kept one, or the same and no later fetch; what is left meets both caps |
| CacheModel.ScoreVictims | ai-workflow/workflow_kit/cache_lfu_decay.py:153-183 | of the two loops on precomputed scores: no evicted entry scores above a kept one |
| CacheStore.OnDiskIgnoresOrder | ai-workflow/workflow_kit/url_validity.py:966-974 | dicts with the same entries print the same file, because keys are printed sorted |
| CacheStore.StrLeIff | ai-workflow/workflow_kit/url_validity.py:974 | the keys are printed in the order of Python strings: by the first character that differs, a prefix first |
| CacheStore.StrategyFileNames | ai-workflow/workflow_kit/url_validity.py:812-819 | their names end in "_lru", "_lfu" and "_mixed" |
| CacheStore.StrategyFilesDiffer | ai-workflow/workflow_kit/url_validity.py:812-819 | the three strategies of one base path have three different files |
| CacheStore.PopIsGreedy | ai-workflow/workflow_kit/cache_size_compare.py:70-80 | inside the default caps, popping from the presorted list is the greedy loop with the file size as its only cap, and raises no KeyError |
| CacheStore.EvictOverSizeIsGreedy | ai-workflow/workflow_kit/cache_size_compare.py:49-114 | so the two functions, on a file of the program inside the caps, are that greedy loop |
| CacheStore.SavedFileIsCanonical | ai-workflow/workflow_kit/url_validity.py:974-1012 | every file that a save under the default caps leaves is of that kind |
| CacheStore.PopRaisesIff | ai-workflow/workflow_kit/cache_size_compare.py:49-114 | for every cache and limit: it raises a KeyError if and only if it comes to an entry that the first save evicted while the file is still too big; only a cache that breaks a default cap even after the first pop lets it, and with a limit below every file size each such cache does |
| CacheStore.PoppedByStrategy | ai-workflow/workflow_kit/cache_size_compare.py:70-114 | of a popped and a kept entry, the popped one was fetched no later (lru) or has no more hits (lfu) |
| CacheStore.FreshEntryAnswers | ai-workflow/workflow_kit/url_validity.py:1013-1049 | an entry of the url no older than the time to live, its very age included, answers, and stands in the dict with one more hit, the others untouched |
| CacheStore.StaleEntryIsFetchedAnew | ai-workflow/workflow_kit/url_validity.py:1013-1058 | if every entry of the url is older or there is none, the answer is the fresh result, and the dict holds it with no hit in place of the old one |
| CacheStore.CheckedFile | ai-workflow/workflow_kit/url_validity.py:1048-1057 | after a check the file holds entries of that dict only, and all of them if it meets the caps |
| CacheStore.EvictionsCounted | ai-workflow/workflow_kit/url_validity.py:989-996 | a save adds the number of evicted entries to total, session and the counter of its strategy, mixed counting as lfu, and to no other |
| UrlCache.CacheModule.SaveCache | ai-workflow/workflow_kit/url_validity.py:950-1012 | the loop, the counters and the file it writes: exactly the specified store, and the dict the caller is left with |
| UrlCache.CacheModule.SaveCacheWithLfu | ai-workflow/workflow_kit/lfu_integration.py:43-82 | the composite-key loop, with a clock reading for every entry in every pass, leaves what the clocked greedy loop leaves; a zero `decay_seconds` raises exactly when something must go |
| UrlCache.CacheModule.SaveCacheLfuDecayFull | ai-workflow/workflow_kit/cache_lfu_decay.py:103-189 | the score of every entry, with its age cut off at zero and the fallback to the hit count, is computed up front, and the two loops leave the two-phase result; when a zero `decay_seconds` raises |
| UrlCache.CacheModule.CheckUrlWithCache | ai-workflow/workflow_kit/url_validity.py:1022-1058 | answer, file and counters after a lookup: the recorded issues if an entry is no older than the time to live, the online ones otherwise |
| UrlCache.CacheModule.CacheClear | ai-workflow/workflow_kit/url_validity.py:1061-1064 | removes that file and nothing else |
| UrlCache.CacheModule.CachePrune | ai-workflow/workflow_kit/url_validity.py:1146-1202 | the three files after a prune, the report for each, and the overall entry, whose total a real run does take out of the files |
| CacheStore.PruneAccounts | ai-workflow/workflow_kit/url_validity.py:1172-1202 | a real run takes out at least the reported total, exactly it when what is left fits the default caps; a dry run nothing |
| CacheStore.UnprunedMembers | ai-workflow/workflow_kit/url_validity.py:1182-1189 | a prune keeps an entry if and only if it is young enough or has enough hits, a minimum of zero hits protecting nothing |
| UrlCache.CacheModule.KeepUnpruned | ai-workflow/workflow_kit/url_validity.py:1178-1192 | the loop leaves exactly the entries that the criteria spare, in order |
| UrlCache.PruneReportHonestIff | ai-workflow/workflow_kit/url_validity.py:1190-1202 | the reported `kept` is the number of unpruned entries if and only if the call is a dry run or removes nothing; inside the default caps a real run reports the unpruned less the removed |
| UrlCache.CacheModule.EvictOverSize | ai-workflow/workflow_kit/cache_size_compare.py:49-114 | the pop loop on the real dict and file, including the KeyError case |
| UrlCache.CacheModule.SplitToPerStrategy | ai-workflow/workflow_kit/cache_migration.py:104-175 | the files after a split, an empty part unwritten; when it splits, and the two counts, which add up to the mixed file inside the default caps |
| UrlCache.CacheModule.MergePerStrategyToMixed | ai-workflow/workflow_kit/cache_migration.py:183-236 | the files after a merge, with or without deleting the sources; when it merges, the counts of the sources, and the total as the mixed file then holds |
| UrlCache.CacheModule.MigrateToPerStrategyCache | ai-workflow/workflow_kit/cache_migration.py:37-101 | the single file moves to its mixed name if and only if it holds entries and no per-strategy file exists; the flag and the count say so |
| CacheMigration.SplitFiles | ai-workflow/workflow_kit/cache_migration.py:144-162 | the two files hold the two parts: size monotonicity means neither save evicts |
| CacheMigration.SplitSends | ai-workflow/workflow_kit/cache_migration.py:144-162 | after a split the lfu file holds exactly the entries with at least the threshold of hits, the lru file the others |
| CacheMigration.PartsMerge | ai-workflow/workflow_kit/cache_migration.py:214-226 | updating one part with the other gives back the split dict up to order |
| CacheMigration.MergePrefersLfu | ai-workflow/workflow_kit/cache_migration.py:214-226 | the merged file holds every lfu entry, and of the lru ones those whose url the lfu file does not have |
| CacheMigration.SplitMergeIdentity | ai-workflow/workflow_kit/cache_migration.py:144-226 | split then merge is the identity on the mixed file for every threshold; no other file and no counter changes |
| CacheMigration.MigrateSplitMerge | ai-workflow/workflow_kit/cache_migration.py:37-236 | migrate, split and merge only rename the file |
| CacheHistory.EntriesAccounted | ai-workflow/workflow_kit/url_validity.py:1013-1058 | over every run of checks, prunes, clears and evictions: each stored entry is its last fetch, and its count is the hits since |
| CacheHistory.AnswersAreFreshOrRecent | ai-workflow/workflow_kit/url_validity.py:1013-1058 | over every run: an answer is a fresh result, or was recorded by the last fetch of that url at most `ttl` seconds before |
| CacheHistory.EvictionCountersBalance | ai-workflow/workflow_kit/url_validity.py:986-996 | over every run: total = session = lru + lfu, and every entry ever added is stored, was deleted, or is counted as evicted, once |
| CacheLock.OneHolderPerInode | ai-workflow/workflow_kit/url_validity.py:876-926 | in every interleaving, with crashes, timeouts and unlinks: at most one process has an inode locked |
| CacheLock.ExclusiveIffNoIntrusion | ai-workflow/workflow_kit/url_validity.py:876-948 | in any run, load-to-save sections exclude each other at every moment if and only if nobody enters, with a lock or without, while an inode is locked or somebody is inside without a lock |
| CacheLock.ExclusiveIffNoMeeting | ai-workflow/workflow_kit/url_validity.py:876-948 | while no lock file in use is unlinked, only processes that never got the lock spoil exclusion: it holds if and only if none of them is inside together with another |
| CacheLock.RecoveryExcludes | ai-workflow/workflow_kit/url_validity.py:928-948 | so it holds in every run in which everybody gets the lock and only unused lock files are unlinked, crashes included |
| CacheLock.CleanRunsExclude | ai-workflow/workflow_kit/url_validity.py:876-926 | in particular without timeouts and unlinks |
| CacheLock.ExclusiveRunsAreSerial | ai-workflow/workflow_kit/url_validity.py:1036-1058 | whenever the sections exclude each other, the file after the run is that of the requests run one after another, in the order of their saves |
| CacheLock.NoHitIsLost | ai-workflow/workflow_kit/url_validity.py:1036-1058 | when in such a run all have finished, that order lists each request once and every hit is counted, on top of whatever history the file had |
| CacheLock.StaleUnlinkLetsTwoIn | ai-workflow/workflow_kit/url_validity.py:928-948 | unlinking a lock file in use can let two in: a run in which both hold a lock |
| CacheLock.TimeoutLosesAHit | ai-workflow/workflow_kit/url_validity.py:890-915 | a timeout can lose a hit: for every request that hits, a run of two in which one hit is not counted |
| PatchParser.Parse | ai-workflow/workflow_kit/common/patching.py:78-106 | the line loop with its three states returns what the line-by-line reading function returns |
| PatchParser.KindOfIff | ai-workflow/workflow_kit/common/patching.py:84-98 | the three markers exclude each other: a line opens, divides or closes exactly when it starts with the one marker |
| PatchParser.ParseInvertsRender | ai-workflow/workflow_kit/common/patching.py:78-106 | parsing undoes rendering for every list of marker-free blocks, any marker lines with or without text behind the markers, and any text around that opens no block; the last line may lack its newline |
| PatchParser.ParsedBlocksAreMarkerFree | ai-workflow/workflow_kit/common/patching.py:78-106 | every block that any text yields is marker-free |
| PatchParser.ParserRange | ai-workflow/workflow_kit/common/patching.py:78-106 | the block lists that some patch text parses to are exactly those whose blocks are marker-free, of terminated lines, the lines to search for also standing apart; between replacement lines a further divider is dropped |
| FuzzyFind.FuzzyFindBlock | ai-workflow/workflow_kit/common/patching.py:22-75 | the nested loops with both early exits return the first window of maximal ratio, as an exhaustive search would, or (-1, 0) below the threshold |
| FuzzyFind.FindMeans | ai-workflow/workflow_kit/common/patching.py:22-75 | what that search finds, in terms of the lines: a stretch that begins and ends with a nonblank line and normalizes to the first of the most similar stretches at most two lines longer or shorter than the SEARCH, if that reaches the threshold; otherwise no such stretch that resembles the SEARCH at all reaches it |
| FuzzyFind.PositionsAre | ai-workflow/workflow_kit/common/patching.py:37-42 | the index map lists the nonblank lines, ascending, each normalized by stripping |
| FuzzyFind.FoundSliceIsWindow | ai-workflow/workflow_kit/common/patching.py:31-75 | the returned slice is in bounds and normalizes to exactly the winning window |
| FuzzyFind.SliceNormalizes | ai-workflow/workflow_kit/common/patching.py:37-66 | the index map back to unfiltered lines is right for every window |
| FuzzyFind.FirstExactWins | ai-workflow/workflow_kit/common/patching.py:47-74 | an exact normalized occurrence is found, the first one if there are several |
| RobustPatch.SourceFile.ApplyRobustPatchDetailed | ai-workflow/workflow_kit/common/patching.py:131-223 | which of the five outcomes, when; the file is written once or not at all; one record per attempted block, scored on the lines it replaces, and when there are as many as blocks |
| RobustPatch.PlaceBlocks | ai-workflow/workflow_kit/common/patching.py:166-205 | the loop gives the sequential splice of all blocks, or fails at the first block without a place |
| RobustPatch.BlockLands | ai-workflow/workflow_kit/common/patching.py:166-205 | one block: the lines it lands on, alike to at least 0.8, give way to its REPLACE lines; its record holds the number, the likeness of the two stripped texts and the first 80 characters; no place exactly when nothing is alike enough |
| RobustPatch.ApplyConcat | ai-workflow/workflow_kit/common/patching.py:166-205 | two lists of blocks in a row: the second is applied to what the first left, and nothing is applied if the first fails |
| RobustPatch.RecordsCompose | ai-workflow/workflow_kit/common/patching.py:166-205 | so are the records, numbered through, up to the first block without a place |
| RobustPatch.FoundAgain | ai-workflow/workflow_kit/common/patching.py:31-75 | lines that stand in the file are located where they stand, if their normalization does not occur earlier |
| RobustPatch.SwappedBlockRestores | ai-workflow/workflow_kit/common/patching.py:166-197 | a block matched verbatim and then its swapped block restore the lines |
| RobustPatch.SwappedBlocksRestore | ai-workflow/workflow_kit/common/patching.py:166-205 | so do any number of blocks, each matched verbatim on what the ones before it left, and then the swapped blocks in reverse order |
| RobustPatch.SwappedPatchRestoresFile | ai-workflow/workflow_kit/common/patching.py:155-221 | the same for the whole patch through two reads and writes of the file: the original bytes if and only if it had no carriage return |
| AtomicWrite.TargetAlwaysWhole | ai-workflow/workflow_kit/common/atomic_write.py:98-120 | any number of writers, any interleaving, partial writes, a crash at any step: the target is its initial content or the whole body of the last writer that renamed; no other file changes |
| AtomicWrite.OnlyTheDeadLeaveTemps | ai-workflow/workflow_kit/common/atomic_write.py:106-120 | in the end, the only extra files belong to writers that died or could not unlink |
| AtomicWrite.CleanFinish | ai-workflow/workflow_kit/common/atomic_write.py:57-82 | with nobody killed, the directory ends as it began but for the target |
| AtomicWrite.Directory.AtomicWriteText | ai-workflow/workflow_kit/common/atomic_write.py:85-120 | one call, with a failing mkstemp, write or rename: target and temporary file afterwards, and whether it raises |
| Ingest.ExclusiveIffRaceFree | ai-workflow/workflow_kit/common/ingest.py:28-41 | at most one ingest is inside at every moment of a run if and only if no caller touches a lock file that appeared after its test |
| Ingest.OneIngestAtATime | ai-workflow/workflow_kit/common/ingest.py:28-41 | in such a run the one inside also finds the lock file there, so the `.partial` names never collide |
| Ingest.FilesAreAPrefix | ai-workflow/workflow_kit/common/ingest.py:95-133 | at every moment the files are the old ones with a prefix of the requested writes applied, each whole, and the lock is still there until release |
| Ingest.FilesAreNewInOrder | ai-workflow/workflow_kit/common/ingest.py:95-126 | in terms of the call: at every moment there is a cut through handoff, backlog, state, index such that each file before it holds its own text if one was brought, and everything else is as it was |
| Ingest.OnlyTheHolderUnlocks | ai-workflow/workflow_kit/common/ingest.py:38-41 | no step of a rejected caller removes the lock |
| Ingest.CrashBlocksForever | ai-workflow/workflow_kit/common/ingest.py:28-41 | after a crash inside, no later run, in which nobody touches a lock file that appeared after its test, changes the files |
| Ingest.AllOrNoneIffOneFile | ai-workflow/workflow_kit/common/ingest.py:95-126 | "all or none at every crash point" holds if and only if at most one file is requested |
| Ingest.IngestIsAtomicIff | ai-workflow/workflow_kit/common/ingest.py:44-126 | in terms of a call: if and only if it brings at most one of handoff, backlog, state and index |
| Ingest.TestThenTouchLetsTwoIn | ai-workflow/workflow_kit/common/ingest.py:28-35 | with test and touch as two steps, a run with two callers inside |
| Ingest.Memory.IngestSessionAtomic | ai-workflow/workflow_kit/common/ingest.py:44-126 | one call: rejected without any change; or each of the four files holds its own text if one was brought and its old content otherwise; or, when a write raises, only those up to some place in the order handoff, backlog, state, index; the lock is gone either way |
| Frontmatter.Serialize | ai-workflow/workflow_kit/okf_export.py:434-454 | the loop prints, between two fences, what the printing function prints for each pair |
| Frontmatter.PrintedScalars | ai-workflow/workflow_kit/okf_export.py:444-452 | a flag prints as "true" or "false", nothing as "None", a text as it is, or in double quotes if one of fourteen characters is in it |
| Frontmatter.PrintedLists | ai-workflow/workflow_kit/okf_export.py:437-443 | a list prints on the line of its key unless an item holds a comma or a bracket; then its items follow, each behind "  - " |
| Frontmatter.ParseSimpleYaml | ai-workflow/workflow_kit/okf_export.py:134-208 | the index loop returns what reading line by line returns |
| Frontmatter.WordsRead | ai-workflow/workflow_kit/okf_export.py:192-197 | a line, anywhere, that gives a key "true", "True" or "yes" stores true, "false", "False" or "no" false, "null", "None" or "~" nothing, whatever the white space around key and word |
| Frontmatter.TextRead | ai-workflow/workflow_kit/okf_export.py:198-204 | text in single or in double quotes loses them and is then taken as it is; text that is no word, not quoted and not bracketed is kept |
| Frontmatter.InlineListRead | ai-workflow/workflow_kit/okf_export.py:182-189 | an inline list gives its items without any quotes around them |
| Frontmatter.BlockListRead | ai-workflow/workflow_kit/okf_export.py:158-180 | a bare key takes the items below it at any indentation, blank lines between them skipped, up to the first other line; without items its value is the empty text |
| Frontmatter.NoPairRead | ai-workflow/workflow_kit/okf_export.py:148-157 | blank lines, comments, lines without a colon and indented lines store nothing |
| Frontmatter.ParseAppend | ai-workflow/workflow_kit/okf_export.py:146-208 | reading is line by line: what follows a line that is no list item is read on top of what came before it |
| Frontmatter.LaterWins | ai-workflow/workflow_kit/okf_export.py:142-208 | a last line sets its key to what it reads as by itself, whatever stood there, and changes no other; every key has one value |
| Frontmatter.ReadBlock | ai-workflow/workflow_kit/okf_export.py:162-173 | the inner loop takes exactly the block items below a bare key |
| Frontmatter.JoinedListReadsBack | ai-workflow/workflow_kit/okf_export.py:182-189 | a printed inline list is cut back into its items, stripped and unquoted, blanks dropped |
| Frontmatter.PairReadsBack | ai-workflow/workflow_kit/okf_export.py:148-206 | reading the lines of one printed pair stores one value and leaves the lines after it |
| Frontmatter.ReadBackIff | ai-workflow/workflow_kit/okf_export.py:434-454 | a value survives printing and reading exactly when it is faithful: quoted strings, trimmed strings that are no word and not quoted, lists of trimmed items |
| Frontmatter.RoundTripIff | ai-workflow/workflow_kit/okf_export.py:134-208 | for all maps with usable keys: reading the printed lines gives the map back if and only if every value is faithful |
| Frontmatter.TextRoundTripIff | ai-workflow/workflow_kit/okf_export.py:134-145 | the same through one text and `splitlines`, for one-line keys and values |
| SemanticUrl.ParseSemanticUrl | ai-workflow/workflow_kit/url_validity.py:340-376 | commit from the path, hash and range from the query fields, the last well-formed one winning |
| SemanticUrl.CommitOfIff | ai-workflow/workflow_kit/url_validity.py:350-356 | the commit is read if and only if the host is github.com or www.github.com and the path is "/org/repo/blob/" and 7 to 40 lowercase hexadecimal digits, with or without more below |
| SemanticUrl.LastFieldCounts | ai-workflow/workflow_kit/url_validity.py:357-369 | the hash is the last field of the form "hash=sha256:" and 64 lowercase hexadecimal digits, the range the last one "range=a..b" of two commits; without one there is none |
| SemanticUrl.PinnedUrlIff | ai-workflow/workflow_kit/path_resolver.py:244-259 | which paths and commits are pinned, and to which URL: relative paths without a ".." segment, commits of 7 to 40 hexadecimal digits in either case |
| SemanticUrl.PinnedByRef | ai-workflow/workflow_kit/path_resolver.py:261-268 | without a commit, a branch or tag without "/", "?", "&" and a backslash stands in for it |
| SemanticUrl.SuffixText | ai-workflow/workflow_kit/okf_export.py:400-409 | the hash is appended before the range, behind "?" and "&" |
| SemanticUrl.HttpsParse | ai-workflow/workflow_kit/url_validity.py:349 | how an https URL on any host comes apart into host, path, query and fragment |
| SemanticUrl.ExportedReads | ai-workflow/workflow_kit/okf_export.py:400-409 | for every accepted commit, safe path and references, also with "?" or "#" in the path: what the reader returns for the exported URL |
| SemanticUrl.RoundTripIff | ai-workflow/workflow_kit/path_resolver.py:244-259 | the exported URL reads back to exactly its commit, hash and range if and only if the commit is lowercase, hash and range are well formed and the path has no "#" |
| SchemaInliner.AcyclicTerminates | ai-workflow/workflow_kit/common/output_contracts.py:361-372 | for acyclic definitions resolution returns as soon as the recursion limit reaches the rank |
| SchemaInliner.TerminatesIffAcyclic | ai-workflow/workflow_kit/common/output_contracts.py:361-372 | it returns for some limit if and only if the reachable definitions are acyclic |
| SchemaInliner.LimitIrrelevant | ai-workflow/workflow_kit/common/output_contracts.py:361-372 | a larger limit does not change the result |
| SchemaInliner.ResolveLeavesNoRef | ai-workflow/workflow_kit/common/output_contracts.py:361-372 | no reference to a known definition is left, if no definition that a reference can name is a bare string naming a definition |
| SchemaInliner.AlwaysRefFreeIff | ai-workflow/workflow_kit/common/output_contracts.py:361-372 | and that condition is exact: every node resolves to one without references if and only if it holds |
| SchemaInliner.ResolveIdempotent | ai-workflow/workflow_kit/common/output_contracts.py:361-372 | resolving twice is resolving once |
| SchemaMeaning.ResolvePreservesMeaning | ai-workflow/workflow_kit/common/output_contracts.py:361-372 | the resolved schema, alone, accepts the values the original accepts under its definitions: every keyword of sections 6.4 to 6.7 of JSON Schema draft-07 validation, `prefixItems` of 2020-12, and `$ref` siblings ignored as in section 8.3 of the draft-07 core |
| SchemaMeaning.InliningPreservesMeaning | ai-workflow/workflow_kit/common/output_contracts.py:354-380 | the same for the whole function, `$defs` dropped |
| SchemaMeaning.InlinedIsSelfContained | ai-workflow/workflow_kit/common/output_contracts.py:354-380 | the result names no definition it had, and inlining it again changes nothing, under the same exact condition |
| SchemaMeaning.ConstSurvivesIff | ai-workflow/workflow_kit/common/output_contracts.py:361-370 | a `const` keeps its verdict on every instance if and only if its value holds nothing shaped like a known reference |
| SchemaReference.DefsReferenceResolves | ai-workflow/workflow_kit/common/output_contracts.py:361-369 | "#/$defs/<token>" points by RFC 6901 to the definition the token spells, and names to the inliner the one it is written like: the same for every name without "~" |
| SchemaReference.TwoReadings | ai-workflow/workflow_kit/common/output_contracts.py:364-368 | of a reference of any number of tokens the inliner reads the last one alone, where RFC 6901 walks all of them |
| SchemaReference.OnlyDefsAgree | ai-workflow/workflow_kit/common/output_contracts.py:361-369 | the two readings agree in every document if and only if the reference is one literal name in `$defs` |
| Gitignore.GitignoreFile.EnsureGitignorePatterns | ai-workflow/workflow_kit/gitignore.py:26-79 | the four cases and their messages; a dry run decides the same and writes nothing |
| Gitignore.EmptyReportIff | ai-workflow/workflow_kit/gitignore.py:36-79 | the report is empty if and only if the file stays as it is, for every content |
| Gitignore.ReportSays | ai-workflow/workflow_kit/gitignore.py:36-79 | which message, when: both markers decide first, then the mention of the copied scripts; a dry run differs in the one message about creating |
| Gitignore.BlockBracketed | ai-workflow/workflow_kit/gitignore.py:20-23 | the block is START, text without "=", END, so that no marker occurs inside it |
| Gitignore.EndFirst | ai-workflow/workflow_kit/gitignore.py:51-57 | the first END of a text with a block is the block's own, when none stands before it: none inside, none across its edges |
| Gitignore.GoodSettlesInTwo | ai-workflow/workflow_kit/gitignore.py:47-79 | two runs reach text, block, text, the outer texts verbatim, and no later run reports a change |
| Gitignore.CreatedIsSettled | ai-workflow/workflow_kit/gitignore.py:41-45 | a missing file is created settled |
| Gitignore.BadNeverSettles | ai-workflow/workflow_kit/gitignore.py:51-61 | with END before START every run changes the file and adds at least a block |
| Gitignore.SettlesIff | ai-workflow/workflow_kit/gitignore.py:29-39 | a fixpoint is ever reached if and only if no END precedes the first START, and then in two runs |
| Gitignore.StrayEndNeverSettles | ai-workflow/workflow_kit/gitignore.py:51-61 | the single END marker as a file, growing for ever |
| VersionMarker.ParseVersionMarker | ai-workflow/workflow_kit/upgrade_diff.py:214-227 | the loop returns the first marker within five lines |
| VersionMarker.MarkerWithinFive | ai-workflow/workflow_kit/upgrade_diff.py:214-227 | which is the first marker line of the text, if that is one of the first five lines, and nothing otherwise |
| VersionMarker.MatchMarkerIff | ai-workflow/workflow_kit/upgrade_diff.py:53-58 | the matcher finds a version in exactly the lines that the marker pattern describes as a grammar |
| VersionMarker.StampReadsBackIff | ai-workflow/workflow_kit/upgrade_diff.py:235-264 | a stamped file reads back its version if and only if the version is one the pattern knows |
| VersionMarker.MarkerLooks | ai-workflow/workflow_kit/upgrade_diff.py:62-83 | the marker of each of the twenty file types: a "#", "//", "/*" or HTML comment with the name of the kit, " v" and the version |
| VersionMarker.StampOnce | ai-workflow/workflow_kit/upgrade_diff.py:247-264 | stamping again changes nothing, for any version and suffix, and the content is kept |
| VersionMarker.MarkerVersionParses | ai-workflow/workflow_kit/upgrade_diff.py:142-172 | comparing versions taken from markers never raises |
| VersionMarker.CompareIsTotal | ai-workflow/workflow_kit/upgrade_diff.py:180-206 | the comparison of marker versions is total and antisymmetric in sign |
| VersionMarker.CompareIsTransitive | ai-workflow/workflow_kit/upgrade_diff.py:180-206 | and transitive |
| VersionMarker.DottedOrder | ai-workflow/workflow_kit/upgrade_diff.py:142-206 | of two dotted versions the greater number in the first of three places that differ wins, by value, the fourth place ignored |
| VersionMarker.DottedVersion | ai-workflow/workflow_kit/upgrade_diff.py:158-172 | every four-number version is one the pattern knows, and parses to its first three numbers |
| VersionMarker.HotfixesTie | ai-workflow/workflow_kit/upgrade_diff.py:158-172 | versions that differ only in a fourth number tie |
| VersionMarker.StagesInOrder | ai-workflow/workflow_kit/upgrade_diff.py:94-106 | of one release: alpha before beta before rc, pre or preview before any unknown word before final or stable before the release itself, in any case of letters |
| VersionMarker.StagesTie | ai-workflow/workflow_kit/upgrade_diff.py:94-106 | two words of one stage tie, and so do any two unknown ones |
| Upgrade.Target.ApplyUpgrade | ai-workflow/scripts/apply_workflow_upgrade.py:116-230 | report and tree after a run; the report does not depend on dry run or confirmation |
| Upgrade.Target.CopyBundle | ai-workflow/scripts/apply_workflow_upgrade.py:159-211 | deciding each file on the changing tree is deciding all on the tree at the start |
| Upgrade.ReportIsHonest | ai-workflow/scripts/apply_workflow_upgrade.py:159-222 | for every path, each list of the report says what a confirmed real run does to it; every bundled file is in exactly one list |
| Upgrade.BundleArrivesIff | ai-workflow/workflow_kit/upgrade_diff.py:359-458 | after a run every unpreserved bundled file has the bundle's hash if and only if the target's copy was not a different one of strictly higher rank, or there was force |
| Upgrade.PreservedUntouched | ai-workflow/scripts/apply_workflow_upgrade.py:102-113 | an existing preserved file survives every run unchanged, under force and cleanup |
| Upgrade.PreservedUntouchedAlways | ai-workflow/scripts/apply_workflow_upgrade.py:102-222 | and every sequence of runs |
| Upgrade.UserDataSurvives | ai-workflow/scripts/apply_workflow_upgrade.py:102-222 | over every sequence of runs: what is at or below ai-workflow/memory, ai-workflow/WORKFLOW_INDEX.md or ai-workflow/README.md stays exactly as it was |
| Upgrade.OthersAreOverwritten | ai-workflow/scripts/apply_workflow_upgrade.py:159-222 | and nothing else does: under force, without the version short-circuit, every other bundled file arrives as bundled, the VERSION file aside |
| Upgrade.RemovedIff | ai-workflow/scripts/apply_workflow_upgrade.py:214-230 | a file goes if and only if a real, confirmed cleanup finds it below ai-workflow, unbundled and not user data; every real run writes the version of the kit |
| Upgrade.DottedUpgrade | ai-workflow/workflow_kit/upgrade_diff.py:401-440 | two files with four-number markers and different contents: the bundle wins unless the first differing of three numbers is greater in the target |
| Upgrade.SecondRunIsQuiet | ai-workflow/scripts/apply_workflow_upgrade.py:147-230 | a second run without force changes nothing, with the version short-circuit, or without it when the bundled VERSION agrees with the kit |
| Upgrade.WrittenVersionIsRecognized | ai-workflow/workflow_kit/upgrade_diff.py:289-304 | the written version is recognized by the next run if and only if it does not start with two "v" |
| Upgrade.RankNeverDrops | ai-workflow/workflow_kit/upgrade_diff.py:359-458 | over every sequence of upgrades without force a file whose copies are marked never drops in rank |
| Upgrade.HotfixDowngradeOverwrites | ai-workflow/workflow_kit/upgrade_diff.py:401-440 | but it is replaced by an older hotfix |

## Left out

- Network: the online, body, HEAD and per-host checks and phishing feeds are one function of URL and time.
- JSON, gzip and UTF-8: a cache file is the entries it was written from, sorted by key; an unfinished write loads as empty. Only the printed-size formula is modelled.
- Floats: timestamps, scores and ratios are reals, without rounding; `fuzzy_score` is not rounded to three digits.
- `_last_eviction_timestamp`: written by the save loop and read by nothing modelled.
- UrlCache.CacheModule.SaveCacheLfuDecayFull: two to a negative power is a parameter, of which the monotonicity lemma asks only that it never grows.
- AtomicWrite.TargetAlwaysWhole: process crashes only; power loss, a failing fsync and renames across file systems are not modelled.
- AtomicWrite.CleanFinish: `atomic_write_json` is the same writer with a serialized body.
- CacheLock.ExclusiveIffNoIntrusion: retry delays and lock-file ages are not modelled: an unlink may come at any moment, and a timeout at any moment after a failed attempt.
- CacheLock.NoHitIsLost: all requests are on one path, whose file is absent, unreadable or what earlier operations of the kit left.
- CacheLock.OneHolderPerInode: the POSIX branch; on Windows the lock does nothing.
- Ingest.FilesAreAPrefix: runs in which no caller touches a lock file that appeared after its test; `Ingest.ExclusiveIffRaceFree` says that only those exclude.
- CacheMigration.SplitMergeIdentity: the mixed file is inside the default caps, and a part that comes out empty finds no old file; outside the caps the saves evict.
- Frontmatter.TextRoundTripIff: the text between the fences; the pattern that finds the fences is not modelled. Keys are nonempty, trimmed, without ":" and start neither like a comment nor like a list item, which the fixed keys of the exporter are.
- SemanticUrl.RoundTripIff: a github.com or www.github.com origin of the form the resolver normalizes to; a ref instead of a commit, and the default-branch URL, read back no commit unless they look like one.
- SemanticUrl.HttpsParse: network locations with brackets, which `urlsplit` may reject, and its version-dependent Unicode check.
- SemanticUrl.ExportedReads: hash and range values hold no "&", "#", tab or line break.
- SchemaInliner.ResolveLeavesNoRef: reachable definitions that are bare strings naming a definition are excluded, which `SchemaInliner.AlwaysRefFreeIff` shows is exact.
- SchemaMeaning.InliningPreservesMeaning: no known reference inside plain data (`const`, `enum` and the other assertions, whose verdicts are a parameter, as is pattern matching), no map of subschemas that is itself shaped like one, and definitions that are schemas; `SchemaMeaning.ConstSurvivesIff` shows what happens to data. Unknown keywords constrain nothing, and an object whose `$ref` names no known definition is judged by its other keywords.
- SchemaReference.TwoReadings: paths through objects only; percent-encoding, array indices and other documents are not modelled.
- VersionMarker.MarkerVersionParses: digits are ASCII, where `\d` and `int` also take other decimal digits, and `int` also takes "+1", " 1" and "1_0": a version so written, which no marker holds, raises here and is compared by the program.
- Upgrade.Target.ApplyUpgrade: text files only; the branches for binary and undecodable files, which bypass the preserve rule, are left out, as are directories, file modes and a path that is a file in one tree and a directory in the other. Deleted paths are a set, which the program lists sorted.
- Upgrade.ReportIsHonest: paths other than ai-workflow/VERSION, which every real run rewrites after the report is made.
- Upgrade.RankNeverDrops: a run that deletes the file in a confirmed cleanup is excluded, and so is the VERSION file, which has no marker.
- `content_hash`: any function of the text; SHA-256 and its truncation are not modelled.
- PatchParser.Parse: returns blocks only; messages are left out here and in the patcher.
- Cache statistics, hit rates, trends, dashboards, the command line, release pipeline, compliance scanners, path classification and the TypeScript configuration: display or input and output, or easy.
- `resolve_in_repo_path_to_url`, origin detection and branch detection: environment and git reads.
