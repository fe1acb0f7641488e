/** Applying SEARCH/REPLACE blocks to a file. */
module RobustPatch {
  import opened Options
  import opened Text
  import opened PatchParser
  import opened FuzzyFind

  const THRESHOLD := 0.8

  /** `lines[:start] + replace + lines[start + length:]` */
  function Splice(lines: seq<string>, start: nat, length: nat, replace: seq<string>): (r: seq<string>)
    requires start + length <= |lines|
  {
    lines[..start] + replace + lines[start + length..]
  }

  /** The lines after all blocks, or nothing if some block finds no place. */
  ghost function ApplyBlocks(lines: seq<string>, blocks: seq<Block>, ratio: Ratio): (r: Option<seq<string>>)
    decreases |blocks|
  {
    if blocks == [] then Some(lines)
    else
      var m := FindBlock(lines, blocks[0].search, THRESHOLD, ratio);
      if m.NoMatch? then None
      else ApplyBlocks(Splice(lines, m.start, m.length, blocks[0].replace), blocks[1..], ratio)
  }

  /** How many blocks from the front find their place. */
  ghost function Placed(lines: seq<string>, blocks: seq<Block>, ratio: Ratio): (n: nat)
    ensures n <= |blocks|
    ensures ApplyBlocks(lines, blocks, ratio).Some? <==> n == |blocks|
    decreases |blocks|
  {
    if blocks == [] then 0
    else
      var m := FindBlock(lines, blocks[0].search, THRESHOLD, ratio);
      if m.NoMatch? then 0
      else 1 + Placed(Splice(lines, m.start, m.length, blocks[0].replace), blocks[1..], ratio)
  }

  lemma ApplyNext(lines: seq<string>, blocks: seq<Block>, i: nat, ratio: Ratio)
    requires i < |blocks|
    ensures var m := FindBlock(lines, blocks[i].search, THRESHOLD, ratio);
            && (m.NoMatch? ==> ApplyBlocks(lines, blocks[i..], ratio) == None && Placed(lines, blocks[i..], ratio) == 0)
            && (m.Match? ==>
                  var next := Splice(lines, m.start, m.length, blocks[i].replace);
                  && ApplyBlocks(lines, blocks[i..], ratio) == ApplyBlocks(next, blocks[i + 1..], ratio)
                  && Placed(lines, blocks[i..], ratio) == 1 + Placed(next, blocks[i + 1..], ratio))
  {
    assert blocks[i..][0] == blocks[i] && blocks[i..][1..] == blocks[i + 1..];
  }

  /** One record per attempted block: the attempt that fails is the last. */
  datatype Detail = Detail(blockIndex: nat, matched: bool, fuzzyScore: Option<real>, preview: string)

  datatype Outcome = FileNotFound | NoBlocks | BlockNotFound(index: nat) | SyntaxErrorInResult | Applied

  /** What the world supplies: the two similarity measures, and whether a text compiles (asked only of
      ".py" files). */
  datatype Oracle = Oracle(ratio: Ratio, textRatio: (string, string) -> real, compiles: string -> bool)

  function Preview(search: seq<string>): string
  {
    var text := Strip(Concat(search)); if |text| <= 80 then text else text[..80]
  }

  /** How alike the SEARCH text and the lines it replaces are, white space around them aside. */
  function Score(lines: seq<string>, start: nat, length: nat, search: seq<string>, oracle: Oracle): real
    requires start + length <= |lines|
  {
    if length > 0 then oracle.textRatio(Strip(Concat(search)), Strip(Concat(lines[start..start + length]))) else 1.0
  }

  /** The record of one attempt. */
  ghost function Attempt(lines: seq<string>, search: seq<string>, i: nat, oracle: Oracle): Detail
  {
    var m := FindBlock(lines, search, THRESHOLD, oracle.ratio);
    Detail(i, m.Match?, if m.Match? then Some(Score(lines, m.start, m.length, search, oracle)) else None,
           Preview(search))
  }

  /** The lines an attempt leaves. */
  ghost function Attempted(lines: seq<string>, b: Block, ratio: Ratio): seq<string>
  {
    var m := FindBlock(lines, b.search, THRESHOLD, ratio);
    if m.Match? then Splice(lines, m.start, m.length, b.replace) else lines
  }

  /** The records of all attempts, each made on the lines that the blocks before it left. */
  ghost function Attempts(lines: seq<string>, blocks: seq<Block>, i: nat, oracle: Oracle): seq<Detail>
    decreases |blocks|
  {
    if blocks == [] then []
    else
      var d := Attempt(lines, blocks[0].search, i, oracle);
      if !d.matched then [d]
      else [d] + Attempts(Attempted(lines, blocks[0], oracle.ratio), blocks[1..], i + 1, oracle)
  }

  /** The records so far and those to come make up `all`; after one more turn they still do. */
  lemma AttemptNext(details: seq<Detail>, lines: seq<string>, blocks: seq<Block>, i: nat, oracle: Oracle,
                    all: seq<Detail>)
    requires i < |blocks| && details + Attempts(lines, blocks[i..], i, oracle) == all
    ensures var d := Attempt(lines, blocks[i].search, i, oracle);
            var next := Attempted(lines, blocks[i], oracle.ratio);
            if d.matched then details + [d] + Attempts(next, blocks[i + 1..], i + 1, oracle) == all
            else details + [d] == all
  {
    assert blocks[i..][0] == blocks[i] && blocks[i..][1..] == blocks[i + 1..];
    var d := Attempt(lines, blocks[i].search, i, oracle);
    if d.matched {
      Reassociate(details, [d], Attempts(Attempted(lines, blocks[i], oracle.ratio), blocks[i + 1..], i + 1, oracle));
    }
  }

  /** The record kept of `n` attempts, the last of which failed if `failed`. */
  predicate Recorded(details: seq<Detail>, n: nat, failed: bool)
  {
    && |details| == n
    && forall k :: 0 <= k < n ==>
         && details[k].blockIndex == k
         && (details[k].matched <==> !(failed && k == n - 1))
         && (details[k].fuzzyScore.Some? <==> details[k].matched)
  }

  lemma RecordedNext(details: seq<Detail>, n: nat, d: Detail)
    requires Recorded(details, n, false) && d.blockIndex == n && (d.fuzzyScore.Some? <==> d.matched)
    ensures Recorded(details + [d], n + 1, !d.matched)
  {
  }

  /** The loop over the blocks: it stops at the first block without a place. */
  method PlaceBlocks(before: seq<string>, blocks: seq<Block>, oracle: Oracle)
    returns (lines: seq<string>, details: seq<Detail>, failed: bool)
    requires InRange(oracle.ratio)
    ensures var result := ApplyBlocks(before, blocks, oracle.ratio);
            (failed <==> result.None?) && (!failed ==> result == Some(lines))
    ensures Recorded(details, Placed(before, blocks, oracle.ratio) + (if failed then 1 else 0), failed)
    ensures details == Attempts(before, blocks, 0, oracle)
  {
    lines, details, failed := before, [], false;
    assert blocks[0..] == blocks;
    for i := 0 to |blocks|
      invariant !failed && Recorded(details, i, false)
      invariant ApplyBlocks(lines, blocks[i..], oracle.ratio) == ApplyBlocks(before, blocks, oracle.ratio)
      invariant details + Attempts(lines, blocks[i..], i, oracle) == Attempts(before, blocks, 0, oracle)
      invariant i + Placed(lines, blocks[i..], oracle.ratio) == Placed(before, blocks, oracle.ratio)
    {
      ApplyNext(lines, blocks, i, oracle.ratio);
      AttemptNext(details, lines, blocks, i, oracle, Attempts(before, blocks, 0, oracle));
      var detail;
      lines, detail := PlaceOne(lines, blocks[i], i, oracle);
      RecordedNext(details, i, detail);
      details := details + [detail];
      if !detail.matched {
        failed := true;
        return;
      }
    }
  }

  /** What a turn of the loop makes of the place that was found, or not. */
  function Outcomes(lines: seq<string>, b: Block, i: nat, m: Match, oracle: Oracle): (seq<string>, Detail)
    requires m.Match? ==> m.start + m.length <= |lines|
  {
    if m.NoMatch? then (lines, Detail(i, false, None, Preview(b.search)))
    else
      (Splice(lines, m.start, m.length, b.replace),
       Detail(i, true, Some(Score(lines, m.start, m.length, b.search, oracle)), Preview(b.search)))
  }

  method Record(lines: seq<string>, block: Block, i: nat, start: int, length: nat, oracle: Oracle)
    returns (next: seq<string>, detail: Detail)
    requires start >= -1 && (start != -1 ==> start + length <= |lines|)
    ensures (next, detail) == Outcomes(lines, block, i, if start == -1 then NoMatch else Match(start, length), oracle)
  {
    var preview := Preview(block.search);
    if start == -1 {
      return lines, Detail(i, false, None, preview);
    }
    var ratio := 1.0;
    if length > 0 {
      ratio := oracle.textRatio(Strip(Concat(block.search)), Strip(Concat(lines[start..start + length])));
    }
    return Splice(lines, start, length, block.replace), Detail(i, true, Some(ratio), preview);
  }

  lemma AttemptIs(lines: seq<string>, b: Block, i: nat, oracle: Oracle)
    ensures (Attempted(lines, b, oracle.ratio), Attempt(lines, b.search, i, oracle))
         == Outcomes(lines, b, i, FindBlock(lines, b.search, THRESHOLD, oracle.ratio), oracle)
  {
  }

  /** One turn of the loop. */
  method PlaceOne(lines: seq<string>, block: Block, i: nat, oracle: Oracle) returns (next: seq<string>, detail: Detail)
    requires InRange(oracle.ratio)
    ensures detail == Attempt(lines, block.search, i, oracle)
    ensures next == Attempted(lines, block, oracle.ratio)
  {
    var start, length := FuzzyFindBlock(lines, block.search, THRESHOLD, oracle.ratio);
    next, detail := Record(lines, block, i, start, length, oracle);
    AttemptIs(lines, block, i, oracle);
  }

  class SourceFile {
    /** The file's characters, or nothing if it does not exist. */
    var content: Option<string>
    const isPython: bool

    constructor (content: Option<string>, isPython: bool)
      ensures this.content == content && this.isPython == isPython
    {
      this.content := content;
      this.isPython := isPython;
    }

    /** `apply_robust_patch_detailed`: the file is written once, after every block has found its place
        and the result compiles, and is otherwise untouched. */
    method ApplyRobustPatchDetailed(patch: string, dryRun: bool, oracle: Oracle)
      returns (outcome: Outcome, details: seq<Detail>)
      requires InRange(oracle.ratio)
      modifies this
      ensures !outcome.Applied? || dryRun ==> content == old(content)
      ensures old(content).None? <==> outcome.FileNotFound?
      ensures old(content).Some? ==>
                var lines := SplitLines(UniversalNewlines(old(content).value));
                var blocks := ParsePatchBlocks(patch);
                var result := ApplyBlocks(lines, blocks, oracle.ratio);
                && (outcome.NoBlocks? <==> blocks == [])
                && (outcome.BlockNotFound? <==> blocks != [] && result.None?)
                && (outcome.BlockNotFound? ==> outcome.index == Placed(lines, blocks, oracle.ratio))
                && (outcome.SyntaxErrorInResult? <==>
                      blocks != [] && result.Some? && isPython && !oracle.compiles(Concat(result.value)))
                && (outcome.Applied? && !dryRun ==> content == Some(Concat(result.value)))
                && (blocks != [] ==>
                      var n := Placed(lines, blocks, oracle.ratio) + (if result.None? then 1 else 0);
                      Recorded(details, n, result.None?))
                && details == Attempts(lines, blocks, 0, oracle)
                && (blocks != [] ==>
                      (|details| == |blocks| <==>
                         result.Some? || Placed(lines, blocks, oracle.ratio) + 1 == |blocks|))
      ensures outcome.FileNotFound? || outcome.NoBlocks? ==> details == []
    {
      details := [];
      if content.None? {
        return FileNotFound, details;
      }
      var lines := SplitLines(UniversalNewlines(content.value));
      var blocks := Parse(patch);
      if blocks == [] {
        return NoBlocks, details;
      }
      var failed;
      lines, details, failed := PlaceBlocks(lines, blocks, oracle);
      if failed {
        return BlockNotFound(|details| - 1), details;
      }
      var text := Concat(lines);
      if isPython && !oracle.compiles(text) {
        return SyntaxErrorInResult, details;
      }
      if !dryRun {
        content := Some(text);
      }
      outcome := Applied;
    }
  }

  // ----- what a patch does, block by block

  /** The `length` lines at `start` are the first of the most similar stretches, alike to at least 0.8. */
  ghost predicate Lands(lines: seq<string>, search: seq<string>, start: nat, length: nat, ratio: Ratio)
  {
    && Ends(Match(start, length), lines)
    && exists i: nat, n: nat ::
         && FirstMostAlike(i, n, Normalize(lines), Normalize(search), ratio)
         && ratio(Slice(Normalize(lines), i, n), Normalize(search)) >= 0.8
         && Normalize(lines[start..start + length]) == Slice(Normalize(lines), i, n)
  }

  /** How alike two stretches are as texts. */
  function Likeness(found: seq<string>, search: seq<string>, oracle: Oracle): real
  {
    oracle.textRatio(Strip(Concat(search)), Strip(Concat(found)))
  }

  function First80(text: string): string { if |text| > 80 then text[..80] else text }

  /** One block: the stretch it lands on gives way to its REPLACE lines, and is recorded with the block's number,
      the likeness of the two texts and the first 80 characters of the SEARCH text. A block with nothing to look
      for, or with no stretch alike to 0.8, has no place. */
  lemma BlockLands(lines: seq<string>, b: Block, k: nat, oracle: Oracle) returns (m: Match)
    requires InRange(oracle.ratio)
    ensures if m.Match? then Lands(lines, b.search, m.start, m.length, oracle.ratio)
            else Normalize(b.search) == [] || NoneReaches(0.8, Normalize(lines), Normalize(b.search), oracle.ratio)
    ensures ApplyBlocks(lines, [b], oracle.ratio) ==
              if m.NoMatch? then None else Some(lines[..m.start] + b.replace + lines[m.start + m.length..])
    ensures Attempts(lines, [b], k, oracle) ==
              [if m.NoMatch? then Detail(k, false, None, First80(Strip(Concat(b.search))))
               else Detail(k, true, Some(Likeness(lines[m.start..m.start + m.length], b.search, oracle)),
                           First80(Strip(Concat(b.search))))]
  {
    m := Landing(lines, b.search, oracle.ratio);
    AloneApplied(lines, b, m, oracle.ratio);
    AloneRecorded(lines, b, k, m, oracle);
    OutcomeText(lines, b, k, m, oracle);
  }

  lemma AloneApplied(lines: seq<string>, b: Block, m: Match, ratio: Ratio)
    requires m == FindBlock(lines, b.search, THRESHOLD, ratio)
    ensures ApplyBlocks(lines, [b], ratio) ==
              if m.NoMatch? then None else Some(lines[..m.start] + b.replace + lines[m.start + m.length..])
  {
    FirstApplied([b] + [], b, [], lines, ratio);
    assert [b] + [] == [b];
  }

  lemma AloneRecorded(lines: seq<string>, b: Block, k: nat, m: Match, oracle: Oracle)
    requires m == FindBlock(lines, b.search, THRESHOLD, oracle.ratio)
    ensures Attempts(lines, [b], k, oracle) == [Outcomes(lines, b, k, m, oracle).1]
  {
    FirstAttempted([b] + [], b, [], lines, k, oracle);
    AttemptIs(lines, b, k, oracle);
    assert [b] + [] == [b];
  }

  lemma OutcomeText(lines: seq<string>, b: Block, k: nat, m: Match, oracle: Oracle)
    requires m.Match? ==> m.start + m.length <= |lines| && m.length > 0
    ensures Outcomes(lines, b, k, m, oracle).1 ==
              if m.NoMatch? then Detail(k, false, None, First80(Strip(Concat(b.search))))
              else Detail(k, true, Some(Likeness(lines[m.start..m.start + m.length], b.search, oracle)),
                          First80(Strip(Concat(b.search))))
  {
    PreviewText(b.search);
    if m.Match? { ScoreText(lines, m.start, m.length, b.search, oracle); }
  }

  lemma Landing(lines: seq<string>, search: seq<string>, ratio: Ratio) returns (m: Match)
    requires InRange(ratio)
    ensures m == FindBlock(lines, search, THRESHOLD, ratio)
    ensures if m.Match? then Lands(lines, search, m.start, m.length, ratio)
            else Normalize(search) == [] || NoneReaches(0.8, Normalize(lines), Normalize(search), ratio)
  {
    m := FindBlock(lines, search, THRESHOLD, ratio);
    var i, n := FindMeans(lines, search, THRESHOLD, ratio);
    if m.Match? { assert Ends(Match(m.start, m.length), lines); }
  }

  lemma PreviewText(search: seq<string>)
    ensures Preview(search) == First80(Strip(Concat(search)))
  {
  }

  lemma ScoreText(lines: seq<string>, start: nat, length: nat, search: seq<string>, oracle: Oracle)
    requires start + length <= |lines| && length > 0
    ensures Score(lines, start, length, search, oracle) == Likeness(lines[start..start + length], search, oracle)
  {
  }

  lemma FirstApplied(blocks: seq<Block>, b: Block, more: seq<Block>, lines: seq<string>, ratio: Ratio)
    requires blocks == [b] + more
    ensures ApplyBlocks(lines, blocks, ratio) ==
              if FindBlock(lines, b.search, THRESHOLD, ratio).NoMatch? then None
              else ApplyBlocks(Attempted(lines, b, ratio), more, ratio)
  {
    assert blocks[0] == b && blocks[1..] == more;
  }

  lemma FirstAttempted(blocks: seq<Block>, b: Block, more: seq<Block>, lines: seq<string>, k: nat, oracle: Oracle)
    requires blocks == [b] + more
    ensures Attempts(lines, blocks, k, oracle) ==
              [Attempt(lines, b.search, k, oracle)]
              + if FindBlock(lines, b.search, THRESHOLD, oracle.ratio).NoMatch? then []
                else Attempts(Attempted(lines, b, oracle.ratio), more, k + 1, oracle)
  {
    assert blocks[0] == b && blocks[1..] == more;
  }

  /** What the records of `b` add when `a` comes before it: nothing if a block of `a` has no place. */
  ghost function Later(mid: Option<seq<string>>, b: seq<Block>, k: nat, oracle: Oracle): seq<Detail>
  {
    if mid.None? then [] else Attempts(mid.value, b, k, oracle)
  }

  /** The blocks are recorded one after the other, numbered through, up to the first without a place. */
  lemma {:induction false} RecordsCompose(lines: seq<string>, a: seq<Block>, b: seq<Block>, ab: seq<Block>,
                                          k: nat, n: nat, oracle: Oracle)
    requires n == k + |a| && ab == a + b
    ensures Attempts(lines, ab, k, oracle)
         == Attempts(lines, a, k, oracle) + Later(ApplyBlocks(lines, a, oracle.ratio), b, n, oracle)
    decreases |a|
  {
    if a == [] {
      assert ab == b;
    } else {
      var first, more := a[0], a[1..];
      assert a == [first] + more;
      Reassociate([first], more, b);
      RecordsCompose(Attempted(lines, first, oracle.ratio), more, b, more + b, k + 1, n, oracle);
      RecordsShift(lines, a, ab, first, more, b, k, n, oracle);
    }
  }

  lemma RecordsShift(lines: seq<string>, a: seq<Block>, ab: seq<Block>, first: Block, more: seq<Block>, b: seq<Block>,
                     k: nat, n: nat, oracle: Oracle)
    requires a == [first] + more && ab == [first] + (more + b)
    requires var next := Attempted(lines, first, oracle.ratio);
             && Attempts(next, more + b, k + 1, oracle)
             == Attempts(next, more, k + 1, oracle) + Later(ApplyBlocks(next, more, oracle.ratio), b, n, oracle)
    ensures Attempts(lines, ab, k, oracle)
         == Attempts(lines, a, k, oracle) + Later(ApplyBlocks(lines, a, oracle.ratio), b, n, oracle)
  {
    var next, d := Attempted(lines, first, oracle.ratio), Attempt(lines, first.search, k, oracle);
    FirstApplied(a, first, more, lines, oracle.ratio);
    FirstAttempted(a, first, more, lines, k, oracle);
    FirstAttempted(ab, first, more + b, lines, k, oracle);
    if FindBlock(lines, first.search, THRESHOLD, oracle.ratio).Match? {
      Reassociate([d], Attempts(next, more, k + 1, oracle),
                  Later(ApplyBlocks(next, more, oracle.ratio), b, n, oracle));
    }
  }

  // ----- undoing a block with the swapped block

  /** A replacement that can be found again: nonblank at both ends. */
  predicate NonblankEnds(lines: seq<string>)
  {
    lines != [] && !Blank(lines[0]) && !Blank(lines[|lines| - 1])
  }

  /** A stretch of lines that is nonblank at both ends occupies consecutive positions, from the number
      of nonblank lines before it on. */
  lemma StretchPositions(lines: seq<string>, s: nat, n: nat, i: nat, size: nat)
    requires 0 < n && s + n <= |lines| && !Blank(lines[s]) && !Blank(lines[s + n - 1])
    requires |Normalize(lines[..s])| == i && |Normalize(lines[s..s + n])| == size
    ensures 0 < size && i + size <= |Positions(lines)|
    ensures Positions(lines)[i] == s && Positions(lines)[i + size - 1] == s + n - 1
  {
    KeptStretch(lines, s, n, i, size, Stripped());
  }

  /** Lines that stand in the file are located there, as long as their normalization does not occur
      earlier. */
  lemma FoundAgain(lines: seq<string>, s: nat, n: nat, ratio: Ratio)
    requires InRange(ratio) && OneMeansEqual(ratio)
    requires s + n <= |lines| && NonblankEnds(lines[s..s + n])
    requires FirstOccurrence(Normalize(lines), Normalize(lines[s..s + n]), |Normalize(lines[..s])|)
    ensures FindBlock(lines, lines[s..s + n], THRESHOLD, ratio) == Match(s, n)
  {
    FoundTarget(lines, s, n, lines[s..s + n], |Normalize(lines[..s])|, ratio);
  }

  lemma FoundTarget(lines: seq<string>, s: nat, n: nat, target: seq<string>, i: nat, ratio: Ratio)
    requires InRange(ratio) && OneMeansEqual(ratio)
    requires s + n <= |lines| && target == lines[s..s + n] && NonblankEnds(target)
    requires i == |Normalize(lines[..s])| && FirstOccurrence(Normalize(lines), Normalize(target), i)
    ensures FindBlock(lines, target, THRESHOLD, ratio) == Match(s, n)
  {
    var size := |Normalize(target)|;
    assert !Blank(lines[s]) && !Blank(lines[s + n - 1]) by {
      assert target[0] == lines[s] && target[n - 1] == lines[s + n - 1];
    }
    StretchPositions(lines, s, n, i, size);
    assert FindBlock(lines, target, THRESHOLD, ratio) == Located(Window(i, size), lines) by {
      FirstExactWins(lines, target, i, THRESHOLD, ratio);
    }
    LocatedIs(i, size, lines, s, n);
  }

  lemma LocatedIs(i: nat, size: nat, lines: seq<string>, s: nat, n: nat)
    requires 0 < size && i + size <= |Positions(lines)| && 0 < n
    requires Positions(lines)[i] == s && Positions(lines)[i + size - 1] == s + n - 1
    ensures Located(Window(i, size), lines) == Match(s, n)
  {
  }

  lemma SpliceParts(lines: seq<string>, s: nat, n: nat, replace: seq<string>)
    requires s + n <= |lines|
    ensures var mid := Splice(lines, s, n, replace);
            && mid[..s] == lines[..s] && s + |replace| <= |mid| && mid[s..s + |replace|] == replace
            && Splice(mid, s, |replace|, lines[s..s + n]) == lines
  {
  }

  /** The block is located at lines equal to its SEARCH text, and its REPLACE text, once there, does not
      occur earlier (normalized). */
  ghost predicate ReplacedVerbatim(lines: seq<string>, b: Block, ratio: Ratio)
  {
    var m := FindBlock(lines, b.search, THRESHOLD, ratio);
    && m.Match? && lines[m.start..m.start + m.length] == b.search
    && FirstOccurrence(Normalize(Splice(lines, m.start, m.length, b.replace)), Normalize(b.replace),
                       |Normalize(lines[..m.start])|)
  }

  ghost function Replaced(lines: seq<string>, b: Block, ratio: Ratio): seq<string>
    requires ReplacedVerbatim(lines, b, ratio)
  {
    var m := FindBlock(lines, b.search, THRESHOLD, ratio);
    Splice(lines, m.start, m.length, b.replace)
  }

  lemma ReplacedWhere(lines: seq<string>, b: Block, ratio: Ratio) returns (s: nat, n: nat)
    requires ReplacedVerbatim(lines, b, ratio)
    ensures 0 < n && s + n <= |lines| && lines[s..s + n] == b.search
    ensures Replaced(lines, b, ratio) == Splice(lines, s, n, b.replace)
    ensures FirstOccurrence(Normalize(Splice(lines, s, n, b.replace)), Normalize(b.replace), |Normalize(lines[..s])|)
  {
    var m := FindBlock(lines, b.search, THRESHOLD, ratio);
    s, n := m.start, m.length;
  }

  lemma ReplacementFound(lines: seq<string>, s: nat, n: nat, replace: seq<string>, ratio: Ratio)
    requires InRange(ratio) && OneMeansEqual(ratio) && NonblankEnds(replace) && s + n <= |lines|
    requires FirstOccurrence(Normalize(Splice(lines, s, n, replace)), Normalize(replace), |Normalize(lines[..s])|)
    ensures FindBlock(Splice(lines, s, n, replace), replace, THRESHOLD, ratio) == Match(s, |replace|)
  {
    SpliceParts(lines, s, n, replace);
    FoundAgain(Splice(lines, s, n, replace), s, |replace|, ratio);
  }

  lemma OneBlock(lines: seq<string>, b: Block, ratio: Ratio, s: nat, n: nat)
    requires s + n <= |lines| && FindBlock(lines, b.search, THRESHOLD, ratio) == Match(s, n)
    ensures ApplyBlocks(lines, [b], ratio) == Some(Splice(lines, s, n, b.replace))
  {
    assert [b][1..] == [];
  }

  lemma UndoOne(lines: seq<string>, b: Block, ratio: Ratio)
    requires InRange(ratio) && OneMeansEqual(ratio) && NonblankEnds(b.replace) && ReplacedVerbatim(lines, b, ratio)
    ensures ApplyBlocks(Replaced(lines, b, ratio), [Block(b.replace, b.search)], ratio) == Some(lines)
  {
    var s, n := ReplacedWhere(lines, b, ratio);
    var mid := Splice(lines, s, n, b.replace);
    ReplacementFound(lines, s, n, b.replace, ratio);
    SpliceParts(lines, s, n, b.replace);
    OneBlock(mid, Block(b.replace, b.search), ratio, s, |b.replace|);
  }

  /** Applying a block whose match is its SEARCH text verbatim, then the same block with SEARCH and
      REPLACE swapped, restores the lines exactly. */
  lemma SwappedBlockRestores(lines: seq<string>, b: Block, ratio: Ratio)
    requires InRange(ratio) && OneMeansEqual(ratio) && NonblankEnds(b.replace)
    requires ReplacedVerbatim(lines, b, ratio)
    ensures var r := ApplyBlocks(lines, [b], ratio);
            r.Some? && ApplyBlocks(r.value, [Block(b.replace, b.search)], ratio) == Some(lines)
  {
    UndoOne(lines, b, ratio);
    assert [b][1..] == [];
    assert ApplyBlocks(lines, [b], ratio) == Some(Replaced(lines, b, ratio));
  }

  // ----- undoing a whole patch

  /** Block after block, the SEARCH text is matched verbatim on the lines that the blocks before it left,
      and the replacement can be found again. */
  ghost predicate EachVerbatim(lines: seq<string>, blocks: seq<Block>, ratio: Ratio)
    decreases |blocks|
  {
    blocks == [] ||
    (NonblankEnds(blocks[0].replace) && ReplacedVerbatim(lines, blocks[0], ratio)
     && EachVerbatim(Replaced(lines, blocks[0], ratio), blocks[1..], ratio))
  }

  /** The blocks in reverse order, each with SEARCH and REPLACE swapped. */
  function Swapped(blocks: seq<Block>): seq<Block>
  {
    if blocks == [] then [] else Swapped(blocks[1..]) + [Block(blocks[0].replace, blocks[0].search)]
  }

  lemma {:induction false} ApplyConcat(lines: seq<string>, a: seq<Block>, b: seq<Block>, ratio: Ratio)
    ensures var m := ApplyBlocks(lines, a, ratio);
            ApplyBlocks(lines, a + b, ratio) == if m.None? then None else ApplyBlocks(m.value, b, ratio)
    decreases |a|
  {
    if a == [] {
      assert a + b == b;
    } else {
      assert (a + b)[1..] == a[1..] + b;
      var m := FindBlock(lines, a[0].search, THRESHOLD, ratio);
      if m.Match? { ApplyConcat(Splice(lines, m.start, m.length, a[0].replace), a[1..], b, ratio); }
    }
  }

  lemma ApplyFirst(lines: seq<string>, blocks: seq<Block>, ratio: Ratio)
    requires blocks != [] && ReplacedVerbatim(lines, blocks[0], ratio)
    ensures ApplyBlocks(lines, blocks, ratio) == ApplyBlocks(Replaced(lines, blocks[0], ratio), blocks[1..], ratio)
  {
  }

  /** A patch of blocks that are matched verbatim is undone by the patch of the swapped blocks in reverse
      order. */
  lemma {:induction false} SwappedBlocksRestore(lines: seq<string>, blocks: seq<Block>, ratio: Ratio)
    requires InRange(ratio) && OneMeansEqual(ratio) && EachVerbatim(lines, blocks, ratio)
    ensures var r := ApplyBlocks(lines, blocks, ratio);
            r.Some? && ApplyBlocks(r.value, Swapped(blocks), ratio) == Some(lines)
    decreases |blocks|
  {
    if blocks != [] {
      var b, rest := blocks[0], blocks[1..];
      var mid := Replaced(lines, b, ratio);
      ApplyFirst(lines, blocks, ratio);
      SwappedBlocksRestore(mid, rest, ratio);
      ApplyConcat(ApplyBlocks(mid, rest, ratio).value, Swapped(rest), [Block(b.replace, b.search)], ratio);
      UndoOne(lines, b, ratio);
    }
  }

  /** Block lines as a patch text of "\n" lines yields them: terminated, since a marker line follows. */
  ghost predicate TerminatedLines(lines: seq<string>)
  {
    forall i :: 0 <= i < |lines| ==> IsLine(lines[i]) && '\r' !in lines[i]
  }

  ghost predicate TerminatedBlocks(blocks: seq<Block>)
  {
    forall b :: b in blocks ==> TerminatedLines(b.search) && TerminatedLines(b.replace)
  }

  /** Replacing whole terminated lines leaves the lines of a text. */
  lemma SpliceKeepsTextLines(lines: seq<string>, s: nat, n: nat, replace: seq<string>)
    requires TextLines(lines) && s + n <= |lines| && TerminatedLines(lines[s..s + n])
             && TerminatedLines(replace) && n > 0
    ensures TextLines(Splice(lines, s, n, replace))
  {
    var mid := Splice(lines, s, n, replace);
    assert lines[s..s + n][n - 1] == lines[s + n - 1];
    forall i | 0 <= i < |mid|
      ensures mid[i] != [] && '\r' !in mid[i]
      ensures i < |mid| - 1 ==> IsLine(mid[i])
      ensures IsLine(mid[i]) || NoBreaks(mid[i])
    {
      if i < s {
        assert mid[i] == lines[i];
      } else if i < s + |replace| {
        assert mid[i] == replace[i - s];
      } else {
        assert mid[i] == lines[i - |replace| + n];
      }
    }
  }

  lemma ReplacedKeepsTextLines(lines: seq<string>, b: Block, ratio: Ratio)
    requires TextLines(lines) && ReplacedVerbatim(lines, b, ratio)
    requires TerminatedLines(b.search) && TerminatedLines(b.replace)
    ensures TextLines(Replaced(lines, b, ratio))
  {
    var s, n := ReplacedWhere(lines, b, ratio);
    SpliceKeepsTextLines(lines, s, n, b.replace);
  }

  lemma {:induction false} PatchKeepsTextLines(lines: seq<string>, blocks: seq<Block>, ratio: Ratio)
    requires TextLines(lines) && TerminatedBlocks(blocks) && EachVerbatim(lines, blocks, ratio)
    ensures ApplyBlocks(lines, blocks, ratio).Some? && TextLines(ApplyBlocks(lines, blocks, ratio).value)
    decreases |blocks|
  {
    if blocks != [] {
      ApplyFirst(lines, blocks, ratio);
      assert blocks[0] in blocks;
      ReplacedKeepsTextLines(lines, blocks[0], ratio);
      PatchKeepsTextLines(Replaced(lines, blocks[0], ratio), blocks[1..], ratio);
    }
  }

  lemma TextReadsBack(lines: seq<string>)
    requires TextLines(lines)
    ensures SplitLines(UniversalNewlines(Concat(lines))) == lines
  {
    SplitConcatText(lines);
    UniversalNewlinesIff(Concat(lines));
  }

  /** The same on the file: reading the patched file gives back the patched lines, so the second patch
      leaves the text that was first read. It is the original file exactly when that had no carriage
      return, because a text-mode read has already rewritten those. */
  lemma SwappedPatchRestoresFile(raw: string, blocks: seq<Block>, ratio: Ratio)
    requires InRange(ratio) && OneMeansEqual(ratio) && TerminatedBlocks(blocks)
    requires EachVerbatim(SplitLines(UniversalNewlines(raw)), blocks, ratio)
    ensures var patched := ApplyBlocks(SplitLines(UniversalNewlines(raw)), blocks, ratio);
            && patched.Some?
            && var restored := ApplyBlocks(SplitLines(UniversalNewlines(Concat(patched.value))),
                                           Swapped(blocks), ratio);
            && restored.Some?
            && Concat(restored.value) == UniversalNewlines(raw)
            && (Concat(restored.value) == raw <==> '\r' !in raw)
  {
    var text := UniversalNewlines(raw);
    var lines := SplitLines(text);
    UniversalNewlinesIff(raw);
    assert TextLines(lines) by { SplitTextLines(text); }
    PatchKeepsTextLines(lines, blocks, ratio);
    TextReadsBack(ApplyBlocks(lines, blocks, ratio).value);
    SwappedBlocksRestore(lines, blocks, ratio);
    assert Concat(lines) == text by { SplitLinesConcat(text); }
  }
}
