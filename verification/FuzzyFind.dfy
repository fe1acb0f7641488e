/** The sliding-window search for the place a SEARCH block belongs. */
module FuzzyFind {
  import opened Options
  import opened Text

  /** `SequenceMatcher(None, a, b).ratio()`: the search uses only its range, and that 1 means equal. */
  type Ratio = (seq<string>, seq<string>) -> real

  ghost predicate InRange(ratio: Ratio) { forall a, b :: 0.0 <= ratio(a, b) <= 1.0 }

  ghost predicate OneMeansEqual(ratio: Ratio) { forall a, b :: ratio(a, b) == 1.0 <==> a == b }

  predicate Blank(line: string) { Strip(line) == "" }

  // ----- a list comprehension with a condition, and the map back from its results

  /** What `keep` makes of the lines that it keeps, in order. */
  function FilterMap(lines: seq<string>, keep: string -> Option<string>): (r: seq<string>)
    ensures |r| <= |lines|
  {
    if lines == [] then []
    else
      var n := |lines| - 1;
      FilterMap(lines[..n], keep) + (if keep(lines[n]).Some? then [keep(lines[n]).value] else [])
  }

  /** The indices of the kept lines. */
  function Kept(lines: seq<string>, keep: string -> Option<string>): (r: seq<nat>)
    ensures |r| == |FilterMap(lines, keep)|
    ensures forall k :: 0 <= k < |r| ==> r[k] < |lines|
  {
    if lines == [] then []
    else
      var n := |lines| - 1;
      Kept(lines[..n], keep) + (if keep(lines[n]).Some? then [n] else [])
  }

  lemma {:induction false} FilterMapConcat(a: seq<string>, b: seq<string>, keep: string -> Option<string>)
    ensures FilterMap(a + b, keep) == FilterMap(a, keep) + FilterMap(b, keep)
    decreases |b|
  {
    if b == [] {
      assert a + b == a;
    } else {
      var n := |b| - 1;
      assert (a + b)[..|a + b| - 1] == a + b[..n];
      FilterMapConcat(a, b[..n], keep);
    }
  }

  /** The `k`-th index is a kept line with exactly `k` kept lines before it. */
  lemma {:induction false} KeptAt(lines: seq<string>, k: nat, keep: string -> Option<string>)
    requires k < |Kept(lines, keep)|
    ensures var p := Kept(lines, keep)[k];
            p < |lines| && keep(lines[p]).Some? && |FilterMap(lines[..p], keep)| == k
  {
    var n := |lines| - 1;
    if k < |Kept(lines[..n], keep)| {
      KeptAt(lines[..n], k, keep);
      var p := Kept(lines[..n], keep)[k];
      assert lines[..n][..p] == lines[..p];
    }
  }

  lemma {:induction false} KeptInOrder(lines: seq<string>, keep: string -> Option<string>)
    ensures var r := Kept(lines, keep); forall j, k :: 0 <= j < k < |r| ==> r[j] < r[k]
    ensures var r := Kept(lines, keep);
            forall k :: 0 <= k < |r| ==> keep(lines[r[k]]) == Some(FilterMap(lines, keep)[k])
  {
    if lines != [] {
      var front := lines[..|lines| - 1];
      KeptInOrder(front, keep);
      assert forall p: nat :: p < |front| ==> lines[p] == front[p];
    }
  }

  /** Conversely, a kept line is the index whose number is how many kept lines precede it. */
  lemma {:induction false} KeptOf(lines: seq<string>, p: nat, keep: string -> Option<string>)
    requires p < |lines| && keep(lines[p]).Some?
    ensures var k := |FilterMap(lines[..p], keep)|; k < |Kept(lines, keep)| && Kept(lines, keep)[k] == p
    decreases |lines|
  {
    var n := |lines| - 1;
    if p < n {
      KeptOf(lines[..n], p, keep);
      assert lines[..n][..p] == lines[..p];
    }
  }

  lemma KeptExactly(lines: seq<string>, keep: string -> Option<string>)
    ensures forall p: nat :: p in Kept(lines, keep) <==> p < |lines| && keep(lines[p]).Some?
  {
    forall p: nat
      ensures p in Kept(lines, keep) <==> p < |lines| && keep(lines[p]).Some?
    {
      if p < |lines| && keep(lines[p]).Some? { KeptOf(lines, p, keep); }
      if k: nat :| k < |Kept(lines, keep)| && Kept(lines, keep)[k] == p { KeptAt(lines, k, keep); }
    }
  }

  /** Cutting the lines at two places cuts what they yield at the numbers of kept lines before them. */
  lemma Cut(lines: seq<string>, p: nat, q: nat, i: nat, j: nat, keep: string -> Option<string>)
    requires p <= q <= |lines| && |FilterMap(lines[..p], keep)| == i && |FilterMap(lines[..q], keep)| == j
    ensures i <= j <= |FilterMap(lines, keep)|
    ensures FilterMap(lines[p..q], keep) == FilterMap(lines, keep)[i..j]
  {
    var a, b, c := lines[..p], lines[p..q], lines[q..];
    assert lines[..q] == a + b && lines == lines[..q] + c;
    FilterMapConcat(a, b, keep);
    FilterMapConcat(lines[..q], c, keep);
  }

  lemma NextKept(lines: seq<string>, q: nat, keep: string -> Option<string>)
    requires q < |lines| && keep(lines[q]).Some?
    ensures |FilterMap(lines[..q + 1], keep)| == |FilterMap(lines[..q], keep)| + 1
  {
    assert lines[..q + 1][..q] == lines[..q];
  }

  lemma InOrder(lines: seq<string>, p: nat, q: nat, i: nat, j: nat, keep: string -> Option<string>)
    requires p < |lines| && q < |lines| && keep(lines[q]).Some? && i <= j
    requires |FilterMap(lines[..p], keep)| == i && |FilterMap(lines[..q], keep)| == j
    ensures p <= q
  {
    if q < p {
      NextKept(lines, q, keep);
      Cut(lines, q + 1, p, j + 1, i, keep);
    }
  }

  lemma SliceBetween(lines: seq<string>, p: nat, q: nat, i: nat, size: nat, keep: string -> Option<string>)
    requires p < |lines| && q < |lines| && keep(lines[q]).Some? && 0 < size
    requires |FilterMap(lines[..p], keep)| == i && |FilterMap(lines[..q], keep)| == i + size - 1
    ensures p <= q && i + size <= |FilterMap(lines, keep)|
    ensures FilterMap(lines[p..q + 1], keep) == FilterMap(lines, keep)[i..i + size]
  {
    InOrder(lines, p, q, i, i + size - 1, keep);
    NextKept(lines, q, keep);
    Cut(lines, p, q + 1, i, i + size, keep);
  }

  /** The lines from the first to the last kept line of a window yield exactly that window. */
  lemma KeptSlice(lines: seq<string>, i: nat, size: nat, keep: string -> Option<string>)
    requires 0 < size && i + size <= |Kept(lines, keep)|
    ensures var p, q := Kept(lines, keep)[i], Kept(lines, keep)[i + size - 1];
            p <= q < |lines| && FilterMap(lines[p..q + 1], keep) == FilterMap(lines, keep)[i..i + size]
  {
    KeptAt(lines, i, keep);
    KeptAt(lines, i + size - 1, keep);
    SliceBetween(lines, Kept(lines, keep)[i], Kept(lines, keep)[i + size - 1], i, size, keep);
  }

  /** Conversely, a stretch of lines whose first and last are kept occupies consecutive indices, from the
      number of kept lines before it on. */
  lemma KeptStretch(lines: seq<string>, s: nat, n: nat, i: nat, size: nat, keep: string -> Option<string>)
    requires 0 < n && s + n <= |lines| && keep(lines[s]).Some? && keep(lines[s + n - 1]).Some?
    requires |FilterMap(lines[..s], keep)| == i && |FilterMap(lines[s..s + n], keep)| == size
    ensures 0 < size && i + size <= |Kept(lines, keep)|
    ensures Kept(lines, keep)[i] == s && Kept(lines, keep)[i + size - 1] == s + n - 1
  {
    var last := s + n - 1;
    KeptOf(lines, s, keep);
    KeptOf(lines, last, keep);
    assert |FilterMap(lines[..last], keep)| == i + size - 1 && 0 < size by {
      assert lines[..s + n] == lines[..s] + lines[s..s + n];
      FilterMapConcat(lines[..s], lines[s..s + n], keep);
      NextKept(lines, last, keep);
      Cut(lines, s, last, i, |FilterMap(lines[..last], keep)|, keep);
    }
  }

  // ----- normalization

  function Stripped(): string -> Option<string>
  {
    (line: string) => if Blank(line) then None else Some(Strip(line))
  }

  /** `normalize_lines` */
  function Normalize(lines: seq<string>): (r: seq<string>)
    ensures |r| <= |lines|
  {
    FilterMap(lines, Stripped())
  }

  /** `valid_source_indices`: where the normalized lines come from. */
  function Positions(lines: seq<string>): (r: seq<nat>)
    ensures |r| == |Normalize(lines)|
    ensures forall k :: 0 <= k < |r| ==> r[k] < |lines|
  {
    Kept(lines, Stripped())
  }

  /** The source lines from the first to the last line of a window normalize to exactly that window. */
  lemma SliceNormalizes(lines: seq<string>, i: nat, size: nat)
    requires 0 < size && i + size <= |Positions(lines)|
    ensures var p, q := Positions(lines)[i], Positions(lines)[i + size - 1];
            p <= q < |lines| && Normalize(lines[p..q + 1]) == Normalize(lines)[i..i + size]
  {
    KeptSlice(lines, i, size, Stripped());
  }

  // ----- windows

  datatype Window = Window(at: nat, size: nat)

  /** Sizes within two lines of the normalized SEARCH length, inside the normalized source. */
  predicate IsWindow(w: Window, norm: seq<string>, target: seq<string>)
  {
    0 < w.size && |target| - 2 <= w.size <= |target| + 2 && w.at + w.size <= |norm|
  }

  function Score(w: Window, norm: seq<string>, target: seq<string>, ratio: Ratio): real
    requires w.at + w.size <= |norm|
  {
    ratio(norm[w.at..w.at + w.size], target)
  }

  /** The order of the scan: by start, then by size. */
  predicate Before(v: Window, w: Window) { v.at < w.at || (v.at == w.at && v.size < w.size) }

  /** No window scores more, and none that scores as much comes earlier. */
  ghost predicate IsBest(w: Window, norm: seq<string>, target: seq<string>, ratio: Ratio)
  {
    && IsWindow(w, norm, target) && Score(w, norm, target, ratio) > 0.0
    && forall v :: IsWindow(v, norm, target) ==>
         && Score(v, norm, target, ratio) <= Score(w, norm, target, ratio)
         && (Before(v, w) ==> Score(v, norm, target, ratio) < Score(w, norm, target, ratio))
  }

  lemma BestUnique(v: Window, w: Window, norm: seq<string>, target: seq<string>, ratio: Ratio)
    requires IsBest(v, norm, target, ratio) && IsBest(w, norm, target, ratio)
    ensures v == w
  {
    assert Before(v, w) || Before(w, v) || v == w;
  }

  datatype Match = NoMatch | Match(start: nat, length: nat)

  function Located(w: Window, source: seq<string>): (m: Match)
    requires 0 < w.size && w.at + w.size <= |Positions(source)|
  {
    var p, q := Positions(source)[w.at], Positions(source)[w.at + w.size - 1];
    SliceNormalizes(source, w.at, w.size);
    Match(p, q - p + 1)
  }

  ghost predicate Qualifies(w: Window, source: seq<string>, search: seq<string>, threshold: real, ratio: Ratio)
  {
    && IsBest(w, Normalize(source), Normalize(search), ratio)
    && Score(w, Normalize(source), Normalize(search), ratio) >= threshold
  }

  /** What the search promises, by an exhaustive look at all windows: the first best one, if it reaches
      the threshold. `NoMatch` is the program's (-1, 0). */
  ghost function FindBlock(source: seq<string>, search: seq<string>, threshold: real, ratio: Ratio): (m: Match)
    ensures m.Match? ==> m.start + m.length <= |source| && m.length > 0
  {
    if Normalize(search) != [] && exists w :: Qualifies(w, source, search, threshold, ratio) then
      var w :| Qualifies(w, source, search, threshold, ratio);
      SliceNormalizes(source, w.at, w.size);
      Located(w, source)
    else NoMatch
  }

  lemma FindBlockIs(w: Window, source: seq<string>, search: seq<string>, threshold: real, ratio: Ratio)
    requires Normalize(search) != [] && IsBest(w, Normalize(source), Normalize(search), ratio)
    ensures FindBlock(source, search, threshold, ratio)
         == if Score(w, Normalize(source), Normalize(search), ratio) >= threshold then Located(w, source) else NoMatch
  {
    if v :| Qualifies(v, source, search, threshold, ratio) {
      forall v | Qualifies(v, source, search, threshold, ratio) ensures v == w {
        BestUnique(v, w, Normalize(source), Normalize(search), ratio);
      }
    } else {
      assert !Qualifies(w, source, search, threshold, ratio);
    }
  }

  /** The match begins and ends with a line that is not blank. */
  predicate Ends(m: Match, source: seq<string>)
  {
    && m.Match? && m.length > 0 && m.start + m.length <= |source|
    && Strip(source[m.start]) != "" && Strip(source[m.start + m.length - 1]) != ""
  }

  ghost predicate SliceIsWindow(m: Match, w: Window, source: seq<string>)
  {
    && m.Match? && m.length > 0 && m.start + m.length <= |source| && w.at + w.size <= |Normalize(source)|
    && Normalize(source[m.start..m.start + m.length]) == Normalize(source)[w.at..w.at + w.size]
  }

  /** Whatever it returns, the slice is in bounds and normalizes to the winning window. */
  lemma FoundSliceIsWindow(source: seq<string>, search: seq<string>, threshold: real, ratio: Ratio)
    requires FindBlock(source, search, threshold, ratio).Match?
    ensures exists w :: Qualifies(w, source, search, threshold, ratio)
                        && SliceIsWindow(FindBlock(source, search, threshold, ratio), w, source)
  {
    var w :| Qualifies(w, source, search, threshold, ratio);
    FindBlockIs(w, source, search, threshold, ratio);
    LocatedSlice(w, source);
  }

  lemma LocatedSlice(w: Window, source: seq<string>)
    requires 0 < w.size && w.at + w.size <= |Positions(source)|
    ensures SliceIsWindow(Located(w, source), w, source)
  {
    var p, q := Positions(source)[w.at], Positions(source)[w.at + w.size - 1];
    SliceNormalizes(source, w.at, w.size);
    var m := Located(w, source);
    assert m.start == p && m.start + m.length == q + 1;
  }

  ghost predicate OccursAt(norm: seq<string>, target: seq<string>, i: nat)
  {
    i + |target| <= |norm| && norm[i..i + |target|] == target
  }

  ghost predicate FirstOccurrence(norm: seq<string>, target: seq<string>, i: nat)
  {
    OccursAt(norm, target, i) && forall j: nat :: j < i ==> !OccursAt(norm, target, j)
  }

  /** An exact occurrence always wins, and among several the first one. */
  lemma FirstExactWins(source: seq<string>, search: seq<string>, i: nat, threshold: real, ratio: Ratio)
    requires InRange(ratio) && OneMeansEqual(ratio) && threshold <= 1.0
    requires Normalize(search) != [] && FirstOccurrence(Normalize(source), Normalize(search), i)
    ensures FindBlock(source, search, threshold, ratio) == Located(Window(i, |Normalize(search)|), source)
  {
    var norm, target := Normalize(source), Normalize(search);
    var w := Window(i, |target|);
    assert Score(w, norm, target, ratio) == 1.0;
    forall v | IsWindow(v, norm, target)
      ensures Score(v, norm, target, ratio) <= 1.0
      ensures Before(v, w) ==> Score(v, norm, target, ratio) < 1.0
    {
      if Score(v, norm, target, ratio) == 1.0 {
        assert norm[v.at..v.at + v.size] == target;
        assert OccursAt(norm, target, v.at);
      }
    }
    FindBlockIs(w, source, search, threshold, ratio);
  }

  // ----- the scan with its early exits

  /** What `best_match_idx`, `best_length` and `best_ratio` mean when the scan has covered the windows
      before (i, size): they describe the first best window among those, `best`, if any scored. */
  ghost predicate Tracks(start: int, length: nat, score: real, best: Window, i: int, size: int,
                         source: seq<string>, search: seq<string>, ratio: Ratio)
  {
    var norm, target := Normalize(source), Normalize(search);
    && (if start == -1 then length == 0 && score == 0.0
        else && start >= 0 && IsWindow(best, norm, target) && (best.at < i || (best.at == i && best.size < size))
             && score == Score(best, norm, target, ratio) && score > 0.0
             && Match(start, length) == Located(best, source))
    && forall v :: IsWindow(v, norm, target) && (v.at < i || (v.at == i && v.size < size)) ==>
         && Score(v, norm, target, ratio) <= score
         && (start != -1 && Before(v, best) ==> Score(v, norm, target, ratio) < score)
  }

  /** A size that does not fit is passed over. */
  lemma TrackSkip(start: int, length: nat, score: real, best: Window, i: nat, size: int,
                  source: seq<string>, search: seq<string>, ratio: Ratio)
    requires Tracks(start, length, score, best, i, size, source, search, ratio)
    requires size <= 0 || i + size > |Normalize(source)|
    ensures Tracks(start, length, score, best, i, size + 1, source, search, ratio)
  {
  }

  /** One window that does not score higher. */
  lemma TrackKeep(start: int, length: nat, score: real, best: Window, w: Window,
                  source: seq<string>, search: seq<string>, ratio: Ratio)
    requires Tracks(start, length, score, best, w.at, w.size, source, search, ratio)
    requires IsWindow(w, Normalize(source), Normalize(search))
    requires Score(w, Normalize(source), Normalize(search), ratio) <= score && (start == -1 ==> score == 0.0)
    ensures Tracks(start, length, score, best, w.at, w.size + 1, source, search, ratio)
  {
  }

  /** One window that does. */
  lemma TrackReplace(start: int, length: nat, score: real, best: Window, w: Window,
                     source: seq<string>, search: seq<string>, ratio: Ratio)
    requires InRange(ratio)
    requires Tracks(start, length, score, best, w.at, w.size, source, search, ratio)
    requires IsWindow(w, Normalize(source), Normalize(search))
    requires Score(w, Normalize(source), Normalize(search), ratio) > score
    ensures var m := Located(w, source);
            Tracks(m.start, m.length, Score(w, Normalize(source), Normalize(search), ratio), w, w.at, w.size + 1,
                   source, search, ratio)
  {
  }

  lemma TrackNextStart(start: int, length: nat, score: real, best: Window, i: nat, size: int,
                       source: seq<string>, search: seq<string>, ratio: Ratio)
    requires Tracks(start, length, score, best, i, size, source, search, ratio)
    requires size == |Normalize(search)| + 3
    ensures Tracks(start, length, score, best, i + 1, -2, source, search, ratio)
  {
  }

  /** At a score of one, or at the end of the scan, what is left cannot change the answer. */
  lemma TrackDone(start: int, length: nat, score: real, best: Window, i: int, size: int,
                  source: seq<string>, search: seq<string>, threshold: real, ratio: Ratio)
    requires InRange(ratio) && Normalize(search) != []
    requires Tracks(start, length, score, best, i, size, source, search, ratio)
    requires score == 1.0 || i >= |Normalize(source)|
    ensures FindBlock(source, search, threshold, ratio)
         == if start != -1 && score >= threshold then Match(start, length) else NoMatch
  {
    var norm, target := Normalize(source), Normalize(search);
    if start != -1 {
      forall v | IsWindow(v, norm, target)
        ensures Score(v, norm, target, ratio) <= score
        ensures Before(v, best) ==> Score(v, norm, target, ratio) < score
      {
      }
      FindBlockIs(best, source, search, threshold, ratio);
    } else {
      forall v ensures !Qualifies(v, source, search, threshold, ratio) {
        if IsWindow(v, norm, target) { assert Score(v, norm, target, ratio) <= score; }
      }
    }
  }

  /** The scan up to the windows before (i, size). */
  lemma {:induction false} Scan(i: nat, size: int, source: seq<string>, search: seq<string>, ratio: Ratio)
    returns (start: int, length: nat, score: real, best: Window)
    requires InRange(ratio) && -2 <= size <= |Normalize(search)| + 3
    ensures Tracks(start, length, score, best, i, size, source, search, ratio)
    decreases i, size + 2
  {
    if size == -2 {
      if i == 0 { return -1, 0, 0.0, Window(0, 0); }
      start, length, score, best := Scan(i - 1, |Normalize(search)| + 3, source, search, ratio);
      TrackNextStart(start, length, score, best, i - 1, |Normalize(search)| + 3, source, search, ratio);
    } else {
      start, length, score, best := Scan(i, size - 1, source, search, ratio);
      start, length, score, best := ScanStep(i, size - 1, start, length, score, best, source, search, ratio);
    }
  }

  lemma ScanStep(i: nat, size: int, start: int, length: nat, score: real, best: Window,
                 source: seq<string>, search: seq<string>, ratio: Ratio)
    returns (start': int, length': nat, score': real, best': Window)
    requires InRange(ratio) && size <= |Normalize(search)| + 2
    requires Tracks(start, length, score, best, i, size, source, search, ratio)
    ensures Tracks(start', length', score', best', i, size + 1, source, search, ratio)
  {
    var norm, target := Normalize(source), Normalize(search);
    start', length', score', best' := start, length, score, best;
    if size <= 0 || i + size > |norm| {
      TrackSkip(start, length, score, best, i, size, source, search, ratio);
    } else if size >= |target| - 2 {
      var w := Window(i, size);
      if Score(w, norm, target, ratio) > score {
        TrackReplace(start, length, score, best, w, source, search, ratio);
        score', best' := Score(w, norm, target, ratio), w;
        start', length' := Located(w, source).start, Located(w, source).length;
      } else {
        TrackKeep(start, length, score, best, w, source, search, ratio);
      }
    }
  }

  function Slice(lines: seq<string>, at: nat, size: nat): (r: seq<string>)
    requires at + size <= |lines|
    ensures r == lines[at..at + size]
  {
    lines[at..at + size]
  }

  /** The stretch of `norm` at `i` of length `n` is at most two lines longer or shorter than `target`, none such
      is more like it, and those that start earlier, or at the same line and are shorter, are less like it. */
  ghost predicate FirstMostAlike(i: nat, n: nat, norm: seq<string>, target: seq<string>, ratio: Ratio)
  {
    && 0 < n && |target| - 2 <= n <= |target| + 2 && i + n <= |norm|
    && forall j: nat, k: nat | 0 < k && |target| - 2 <= k <= |target| + 2 && j + k <= |norm| ::
         && ratio(Slice(norm, j, k), target) <= ratio(Slice(norm, i, n), target)
         && (j < i || (j == i && k < n) ==> ratio(Slice(norm, j, k), target) < ratio(Slice(norm, i, n), target))
  }

  /** All those stretches are below the threshold, or not like `target` at all. */
  ghost predicate NoneReaches(threshold: real, norm: seq<string>, target: seq<string>, ratio: Ratio)
  {
    forall j: nat, k: nat | 0 < k && |target| - 2 <= k <= |target| + 2 && j + k <= |norm| ::
      ratio(Slice(norm, j, k), target) < threshold || ratio(Slice(norm, j, k), target) == 0.0
  }

  lemma BestIsFirst(w: Window, norm: seq<string>, target: seq<string>, ratio: Ratio)
    requires IsBest(w, norm, target, ratio)
    ensures FirstMostAlike(w.at, w.size, norm, target, ratio)
    ensures ratio(Slice(norm, w.at, w.size), target) == Score(w, norm, target, ratio)
  {
    forall j: nat, k: nat | 0 < k && |target| - 2 <= k <= |target| + 2 && j + k <= |norm|
      ensures ratio(Slice(norm, j, k), target) <= Score(w, norm, target, ratio)
      ensures j < w.at || (j == w.at && k < w.size) ==>
                ratio(Slice(norm, j, k), target) < Score(w, norm, target, ratio)
    {
      assert IsWindow(Window(j, k), norm, target);
      assert Score(Window(j, k), norm, target, ratio) == ratio(Slice(norm, j, k), target);
    }
  }

  lemma NoneScores(score: real, threshold: real, norm: seq<string>, target: seq<string>, ratio: Ratio)
    requires InRange(ratio) && (score < threshold || score == 0.0)
    requires forall v :: IsWindow(v, norm, target) ==> Score(v, norm, target, ratio) <= score
    ensures NoneReaches(threshold, norm, target, ratio)
  {
    forall j: nat, k: nat | 0 < k && |target| - 2 <= k <= |target| + 2 && j + k <= |norm|
      ensures 0.0 <= ratio(Slice(norm, j, k), target) <= score
    {
      assert IsWindow(Window(j, k), norm, target);
      assert Score(Window(j, k), norm, target, ratio) == ratio(Slice(norm, j, k), target);
    }
  }

  /** What the search finds: a stretch of lines that normalizes to the first of the most similar stretches of
      the normalized source, if that one reaches the threshold, and nothing if none does. */
  lemma FindMeans(source: seq<string>, search: seq<string>, threshold: real, ratio: Ratio)
    returns (i: nat, n: nat)
    requires InRange(ratio)
    ensures var m, norm, target := FindBlock(source, search, threshold, ratio), Normalize(source), Normalize(search);
            if m.Match? then
              && target != [] && FirstMostAlike(i, n, norm, target, ratio)
              && ratio(Slice(norm, i, n), target) >= threshold
              && Ends(m, source) && Normalize(source[m.start..m.start + m.length]) == Slice(norm, i, n)
            else target == [] || NoneReaches(threshold, norm, target, ratio)
  {
    i, n := 0, 0;
    if FindBlock(source, search, threshold, ratio).Match? {
      i, n := Found(source, search, threshold, ratio);
      FoundEnds(source, search, threshold, ratio);
    } else if Normalize(search) != [] {
      NotFound(source, search, threshold, ratio);
    }
  }

  lemma Found(source: seq<string>, search: seq<string>, threshold: real, ratio: Ratio) returns (i: nat, n: nat)
    requires FindBlock(source, search, threshold, ratio).Match?
    ensures var m, norm, target := FindBlock(source, search, threshold, ratio), Normalize(source), Normalize(search);
            && target != [] && FirstMostAlike(i, n, norm, target, ratio)
            && ratio(Slice(norm, i, n), target) >= threshold
            && m.start + m.length <= |source| && Normalize(source[m.start..m.start + m.length]) == Slice(norm, i, n)
  {
    var w :| Qualifies(w, source, search, threshold, ratio);
    FindBlockIs(w, source, search, threshold, ratio);
    LocatedSlice(w, source);
    BestIsFirst(w, Normalize(source), Normalize(search), ratio);
    return w.at, w.size;
  }

  lemma FoundEnds(source: seq<string>, search: seq<string>, threshold: real, ratio: Ratio)
    requires FindBlock(source, search, threshold, ratio).Match?
    ensures Ends(FindBlock(source, search, threshold, ratio), source)
  {
    var w :| Qualifies(w, source, search, threshold, ratio);
    FindBlockIs(w, source, search, threshold, ratio);
    LocatedEnds(w, source);
  }

  lemma LocatedEnds(w: Window, source: seq<string>)
    requires 0 < w.size && w.at + w.size <= |Positions(source)|
    ensures Ends(Located(w, source), source)
  {
    SliceNormalizes(source, w.at, w.size);
    PositionShown(source, w.at);
    PositionShown(source, w.at + w.size - 1);
  }

  lemma PositionShown(lines: seq<string>, k: nat)
    requires k < |Positions(lines)|
    ensures Strip(lines[Positions(lines)[k]]) != ""
  {
    KeptAt(lines, k, Stripped());
    StrippedIs(lines[Positions(lines)[k]]);
  }

  lemma NotFound(source: seq<string>, search: seq<string>, threshold: real, ratio: Ratio)
    requires InRange(ratio) && Normalize(search) != [] && FindBlock(source, search, threshold, ratio).NoMatch?
    ensures NoneReaches(threshold, Normalize(source), Normalize(search), ratio)
  {
    var n := |Normalize(source)|;
    var start, length, score, best := Scan(n, -2, source, search, ratio);
    TrackDone(start, length, score, best, n, -2, source, search, threshold, ratio);
    NoneScores(score, threshold, Normalize(source), Normalize(search), ratio);
  }

  /** The indices are exactly the lines that are not blank, from the first to the last, each stripped. */
  lemma PositionsAre(lines: seq<string>)
    ensures forall p: nat :: p in Positions(lines) <==> p < |lines| && Strip(lines[p]) != ""
    ensures forall j, k :: 0 <= j < k < |Positions(lines)| ==> Positions(lines)[j] < Positions(lines)[k]
    ensures forall k :: 0 <= k < |Positions(lines)| ==> Normalize(lines)[k] == Strip(lines[Positions(lines)[k]])
  {
    KeptInOrder(lines, Stripped());
    KeptExactly(lines, Stripped());
    forall p: nat | p < |lines|
      ensures p in Positions(lines) <==> Strip(lines[p]) != ""
    {
      StrippedIs(lines[p]);
    }
    forall k | 0 <= k < |Positions(lines)|
      ensures Normalize(lines)[k] == Strip(lines[Positions(lines)[k]])
    {
      StrippedIs(lines[Positions(lines)[k]]);
    }
  }

  lemma StrippedIs(line: string)
    ensures Stripped()(line) == if Strip(line) == "" then None else Some(Strip(line))
  {
  }

  lemma NothingToFind(source: seq<string>, search: seq<string>, threshold: real, ratio: Ratio)
    requires Normalize(search) == [] || Normalize(source) == []
    ensures FindBlock(source, search, threshold, ratio) == NoMatch
  {
    if w :| Qualifies(w, source, search, threshold, ratio) {
      assert IsWindow(w, Normalize(source), Normalize(search));
    }
  }

  /** Where a window lies in the unfiltered lines. */
  method Locate(at: nat, size: nat, indices: seq<nat>, ghost source: seq<string>) returns (start: nat, length: nat)
    requires indices == Positions(source) && 0 < size && at + size <= |indices|
    ensures Match(start, length) == Located(Window(at, size), source)
  {
    SliceNormalizes(source, at, size);
    start := indices[at];
    length := indices[at + size - 1] - start + 1;
  }

  /** One turn of the inner loop: the window of size `w` at `i`, if there is one. */
  method Consider(i: nat, w: int, norm: seq<string>, target: seq<string>, indices: seq<nat>,
                  start: int, length: nat, score: real, ghost best: Window,
                  source: seq<string>, search: seq<string>, ratio: Ratio)
    returns (start': int, length': nat, score': real, ghost best': Window)
    requires InRange(ratio) && norm == Normalize(source) && target == Normalize(search) && indices == Positions(source)
    requires |target| - 2 <= w <= |target| + 2
    requires Tracks(start, length, score, best, i, w, source, search, ratio)
    ensures Tracks(start', length', score', best', i, w + 1, source, search, ratio)
  {
    start', length', score', best' := start, length, score, best;
    if w <= 0 || i + w > |norm| {
      TrackSkip(start, length, score, best, i, w, source, search, ratio);
      return;
    }
    var r := Score(Window(i, w), norm, target, ratio);
    if r > score {
      TrackReplace(start, length, score, best, Window(i, w), source, search, ratio);
      score', best' := r, Window(i, w);
      start', length' := Locate(i, w, indices, source);
    } else {
      TrackKeep(start, length, score, best, Window(i, w), source, search, ratio);
    }
  }

  /** `fuzzy_find_block` as the program runs it, with both early exits: they lose nothing. */
  method FuzzyFindBlock(source: seq<string>, search: seq<string>, threshold: real, ratio: Ratio)
    returns (start: int, length: nat)
    requires InRange(ratio)
    ensures start >= -1
    ensures FindBlock(source, search, threshold, ratio) == if start == -1 then NoMatch else Match(start, length)
    ensures start == -1 ==> length == 0
  {
    var target := Normalize(search);
    var norm := Normalize(source);
    if target == [] || norm == [] {
      NothingToFind(source, search, threshold, ratio);
      return -1, 0;
    }
    var indices := Positions(source);
    var score := 0.0;
    ghost var best := Window(0, 0);
    start, length := -1, 0;
    var i := 0;
    ghost var size := -2;
    while i < |norm|
      invariant 0 <= i <= |norm|
      invariant Tracks(start, length, score, best, i, -2, source, search, ratio)
    {
      var diff := -2;
      size := |target| - 2;
      while diff < 3
        invariant -2 <= diff <= 3 && size == |target| + diff
        invariant Tracks(start, length, score, best, i, size, source, search, ratio)
      {
        start, length, score, best :=
          Consider(i, |target| + diff, norm, target, indices, start, length, score, best, source, search, ratio);
        diff := diff + 1;
        size := size + 1;
        if score == 1.0 {
          break;
        }
      }
      if score == 1.0 {
        break;
      }
      TrackNextStart(start, length, score, best, i, size, source, search, ratio);
      i, size := i + 1, -2;
    }
    TrackDone(start, length, score, best, i, size, source, search, threshold, ratio);
    if score < threshold {
      return -1, 0;
    }
    if start == -1 {
      length := 0;
    }
  }
}
