/** Reading SEARCH/REPLACE blocks out of a patch text. */
module PatchParser {
  import opened Text

  datatype Block = Block(search: seq<string>, replace: seq<string>)

  datatype Kind = SearchMark | Divider | ReplaceMark | Plain

  /** The three markers are prefixes; what follows them on the line is ignored. */
  function KindOf(line: string): Kind
  {
    if StartsWith(line, "<<<<<<< SEARCH") then SearchMark
    else if StartsWith(line, "=======") then Divider
    else if StartsWith(line, ">>>>>>> REPLACE") then ReplaceMark
    else Plain
  }

  /** The markers exclude each other, so the order in which a line is compared with them does not matter. */
  lemma KindOfIff(line: string)
    ensures KindOf(line) == SearchMark <==> "<<<<<<< SEARCH" <= line
    ensures KindOf(line) == Divider <==> "=======" <= line
    ensures KindOf(line) == ReplaceMark <==> ">>>>>>> REPLACE" <= line
  {
    FirstChar(line, "<<<<<<< SEARCH");
    FirstChar(line, "=======");
    FirstChar(line, ">>>>>>> REPLACE");
  }

  lemma FirstChar(line: string, m: string)
    requires m != ""
    ensures StartsWith(line, m) <==> m <= line
    ensures m <= line ==> line != "" && line[0] == m[0]
  {
  }

  datatype State = Outside | InSearch | InReplace

  /** What parsing `lines` adds to the blocks found so far. */
  function ParseLines(lines: seq<string>, state: State, search: seq<string>, replace: seq<string>): (blocks: seq<Block>)
  {
    if lines == [] then []
    else
      var line, rest := lines[0], lines[1..];
      match KindOf(line)
      case SearchMark => ParseLines(rest, InSearch, [], [])
      case Divider => ParseLines(rest, if state.InSearch? then InReplace else state, search, replace)
      case ReplaceMark =>
        (if state.InReplace? then [Block(search, replace)] else []) + ParseLines(rest, Outside, search, replace)
      case Plain =>
        ParseLines(rest, state, if state.InSearch? then search + [line] else search,
                   if state.InReplace? then replace + [line] else replace)
  }

  function ParsePatchBlocks(patch: string): (blocks: seq<Block>)
  {
    ParseLines(SplitLines(patch), Outside, [], [])
  }

  /** `parse_patch_blocks` as the program runs it. */
  method Parse(patch: string) returns (blocks: seq<Block>)
    ensures blocks == ParsePatchBlocks(patch)
  {
    var lines := SplitLines(patch);
    blocks := [];
    var search: seq<string>, replace: seq<string> := [], [];
    var state := Outside;
    for i := 0 to |lines|
      invariant blocks + ParseLines(lines[i..], state, search, replace) == ParsePatchBlocks(patch)
    {
      assert lines[i..][1..] == lines[i + 1..];
      var line := lines[i];
      match KindOf(line) {
        case SearchMark =>
          state, search, replace := InSearch, [], [];
        case Divider =>
          if state == InSearch { state := InReplace; }
        case ReplaceMark =>
          if state == InReplace { blocks := blocks + [Block(search, replace)]; }
          state := Outside;
        case Plain =>
          if state == InSearch { search := search + [line]; }
          else if state == InReplace { replace := replace + [line]; }
      }
    }
  }

  // ----- rendering and parsing back

  predicate AllPlain(lines: seq<string>) { forall i :: 0 <= i < |lines| ==> KindOf(lines[i]) == Plain }

  /** Text around the blocks; only an opening marker would be taken for something else. */
  predicate NoOpening(lines: seq<string>) { forall i :: 0 <= i < |lines| ==> KindOf(lines[i]) != SearchMark }

  predicate MarkerFree(b: Block) { AllPlain(b.search) && AllPlain(b.replace) }

  /** The three marker lines around a block, with whatever follows the markers on their lines. */
  datatype Marks = Marks(open: string, divider: string, close: string)

  predicate AreMarks(m: Marks)
  {
    KindOf(m.open) == SearchMark && KindOf(m.divider) == Divider && KindOf(m.close) == ReplaceMark
  }

  function RenderBlock(b: Block, m: Marks): seq<string>
  {
    [m.open] + (b.search + ([m.divider] + (b.replace + [m.close])))
  }

  /** `gaps[i]` precedes block `i`; the last gap follows the last block. */
  function Render(blocks: seq<Block>, marks: seq<Marks>, gaps: seq<seq<string>>): seq<string>
    requires |marks| == |blocks| && |gaps| == |blocks| + 1
  {
    if blocks == [] then gaps[0]
    else gaps[0] + (RenderBlock(blocks[0], marks[0]) + Render(blocks[1..], marks[1..], gaps[1..]))
  }

  lemma Markers()
    ensures KindOf("<<<<<<< SEARCH\n") == SearchMark
    ensures KindOf("=======\n") == Divider
    ensures KindOf(">>>>>>> REPLACE\n") == ReplaceMark
  {
    assert "<<<<<<< SEARCH\n"[..14] == "<<<<<<< SEARCH";
    assert "=======\n"[..7] == "=======";
    assert ">>>>>>> REPLACE\n"[..15] == ">>>>>>> REPLACE";
    assert "=======\n"[0] != "<<<<<<< SEARCH"[0];
    assert ">>>>>>> REPLACE\n"[..14][0] != "<<<<<<< SEARCH"[0];
    assert ">>>>>>> REPLACE\n"[..7][0] != "======="[0];
  }

  lemma {:induction false} SkipGap(gap: seq<string>, rest: seq<string>, search: seq<string>, replace: seq<string>)
    requires NoOpening(gap)
    ensures ParseLines(gap + rest, Outside, search, replace) == ParseLines(rest, Outside, search, replace)
    decreases |gap|
  {
    if gap == [] {
      assert gap + rest == rest;
    } else {
      assert (gap + rest)[1..] == gap[1..] + rest;
      SkipGap(gap[1..], rest, search, replace);
    }
  }

  lemma {:induction false} ReadPlain(lines: seq<string>, rest: seq<string>, state: State,
                                     search: seq<string>, replace: seq<string>)
    requires AllPlain(lines)
    ensures ParseLines(lines + rest, state, search, replace)
         == ParseLines(rest, state, if state.InSearch? then search + lines else search,
                       if state.InReplace? then replace + lines else replace)
    decreases |lines|
  {
    if lines == [] {
      assert lines + rest == rest && search + lines == search && replace + lines == replace;
    } else {
      assert (lines + rest)[1..] == lines[1..] + rest;
      var s := if state.InSearch? then search + [lines[0]] else search;
      var r := if state.InReplace? then replace + [lines[0]] else replace;
      ReadPlain(lines[1..], rest, state, s, r);
      assert search + [lines[0]] + lines[1..] == search + lines;
      assert replace + [lines[0]] + lines[1..] == replace + lines;
    }
  }

  lemma ReadOpen(open: string, rest: seq<string>, state: State, search: seq<string>, replace: seq<string>)
    requires KindOf(open) == SearchMark
    ensures ParseLines([open] + rest, state, search, replace) == ParseLines(rest, InSearch, [], [])
  {
    assert ([open] + rest)[1..] == rest;
  }

  lemma ReadDivider(divider: string, rest: seq<string>, search: seq<string>, replace: seq<string>)
    requires KindOf(divider) == Divider
    ensures ParseLines([divider] + rest, InSearch, search, replace) == ParseLines(rest, InReplace, search, replace)
  {
    assert ([divider] + rest)[1..] == rest;
  }

  lemma ReadClose(close: string, rest: seq<string>, search: seq<string>, replace: seq<string>)
    requires KindOf(close) == ReplaceMark
    ensures ParseLines([close] + rest, InReplace, search, replace)
         == [Block(search, replace)] + ParseLines(rest, Outside, search, replace)
  {
    assert ([close] + rest)[1..] == rest;
  }

  lemma RenderedThen(b: Block, m: Marks, rest: seq<string>)
    ensures RenderBlock(b, m) + rest
         == [m.open] + (b.search + ([m.divider] + (b.replace + ([m.close] + rest))))
  {
  }

  lemma ReadBlock(b: Block, m: Marks, rest: seq<string>, search: seq<string>, replace: seq<string>)
    requires MarkerFree(b) && AreMarks(m)
    ensures ParseLines(RenderBlock(b, m) + rest, Outside, search, replace)
         == [b] + ParseLines(rest, Outside, b.search, b.replace)
  {
    var last := [m.close] + rest;
    var middle := [m.divider] + (b.replace + last);
    RenderedThen(b, m, rest);
    ReadOpen(m.open, b.search + middle, Outside, search, replace);
    ReadPlain(b.search, middle, InSearch, [], []);
    assert [] + b.search == b.search && [] + b.replace == b.replace;
    ReadDivider(m.divider, b.replace + last, b.search, []);
    ReadPlain(b.replace, last, InReplace, b.search, []);
    ReadClose(m.close, rest, b.search, b.replace);
  }

  lemma {:induction false} ParseRenderFrom(blocks: seq<Block>, marks: seq<Marks>, gaps: seq<seq<string>>,
                                           search: seq<string>, replace: seq<string>)
    requires |marks| == |blocks| && |gaps| == |blocks| + 1
    requires forall i :: 0 <= i < |blocks| ==> MarkerFree(blocks[i]) && AreMarks(marks[i])
    requires forall i :: 0 <= i < |gaps| ==> NoOpening(gaps[i])
    ensures ParseLines(Render(blocks, marks, gaps), Outside, search, replace) == blocks
    decreases |blocks|
  {
    if blocks == [] {
      assert gaps[0] + [] == gaps[0];
      SkipGap(gaps[0], [], search, replace);
    } else {
      var rest := Render(blocks[1..], marks[1..], gaps[1..]);
      SkipGap(gaps[0], RenderBlock(blocks[0], marks[0]) + rest, search, replace);
      ReadBlock(blocks[0], marks[0], rest, search, replace);
      ParseRenderFrom(blocks[1..], marks[1..], gaps[1..], blocks[0].search, blocks[0].replace);
      assert blocks == [blocks[0]] + blocks[1..];
    }
  }

  /** Parsing inverts rendering: for every list of marker-free blocks, any marker lines around them, with
      text behind the markers or not, and any text before, between and after them that does not itself
      open a block. The printed lines need only be the lines of a text, whose last one may lack its
      terminator. */
  lemma ParseInvertsRender(blocks: seq<Block>, marks: seq<Marks>, gaps: seq<seq<string>>)
    requires |marks| == |blocks| && |gaps| == |blocks| + 1
    requires forall i :: 0 <= i < |blocks| ==> MarkerFree(blocks[i]) && AreMarks(marks[i])
    requires forall i :: 0 <= i < |gaps| ==> NoOpening(gaps[i])
    requires LinesOfText(Render(blocks, marks, gaps))
    ensures ParsePatchBlocks(Concat(Render(blocks, marks, gaps))) == blocks
  {
    SplitConcat(Render(blocks, marks, gaps));
    ParseRenderFrom(blocks, marks, gaps, [], []);
  }

  /** Conversely every block a patch text yields is marker-free, so rendering is possible. */
  lemma {:induction false} ParsedBlocksAreMarkerFree(lines: seq<string>, state: State,
                                                     search: seq<string>, replace: seq<string>)
    requires AllPlain(search) && AllPlain(replace)
    ensures forall b :: b in ParseLines(lines, state, search, replace) ==> MarkerFree(b)
    decreases |lines|
  {
    if lines != [] {
      var line, rest := lines[0], lines[1..];
      match KindOf(line) {
        case SearchMark => ParsedBlocksAreMarkerFree(rest, InSearch, [], []);
        case Divider => ParsedBlocksAreMarkerFree(rest, if state.InSearch? then InReplace else state, search, replace);
        case ReplaceMark => ParsedBlocksAreMarkerFree(rest, Outside, search, replace);
        case Plain =>
          ParsedBlocksAreMarkerFree(rest, state, if state.InSearch? then search + [line] else search,
                                    if state.InReplace? then replace + [line] else replace);
      }
    }
  }

  // ----- which blocks a patch text can yield

  /** A marker line that no other line can run into. */
  predicate Fence(m: string) { IsLine(m) && m != "\n" && m[|m| - 1] == '\n' }

  lemma MarkersAreFences()
    ensures Fence("<<<<<<< SEARCH\n") && Fence("=======\n") && Fence(">>>>>>> REPLACE\n")
  {
  }

  /** What a patch text yields: the lines to search for stood next to each other; the replacement lines
      may have had further divider lines between them, which are dropped. */
  ghost predicate Readable(b: Block) { MarkerFree(b) && Separate(b.search) && AllLines(b.replace) }

  /** The replacement lines with a divider in front of each, and one at the end. */
  function Spread(replace: seq<string>, divider: string): (lines: seq<string>)
    ensures lines != [] && lines[0] == divider && lines[|lines| - 1] == divider
  {
    if replace == [] then [divider] else [divider, replace[0]] + Spread(replace[1..], divider)
  }

  lemma {:induction false} SpreadSeparate(replace: seq<string>, divider: string)
    requires Fence(divider) && AllLines(replace)
    ensures Separate(Spread(replace, divider))
  {
    if replace != [] {
      SpreadSeparate(replace[1..], divider);
      SeparateConcat([divider, replace[0]], Spread(replace[1..], divider));
    }
  }

  /** After the first divider the others are dropped. */
  lemma DropDivider(divider: string, rest: seq<string>, state: State, search: seq<string>, replace: seq<string>)
    requires KindOf(divider) == Divider && !state.Outside?
    ensures ParseLines([divider] + rest, state, search, replace) == ParseLines(rest, InReplace, search, replace)
  {
    assert ([divider] + rest)[1..] == rest;
  }

  lemma {:induction false} ReadSpread(replace: seq<string>, divider: string, rest: seq<string>, state: State,
                                      search: seq<string>, before: seq<string>)
    requires KindOf(divider) == Divider && AllPlain(replace) && !state.Outside?
    ensures ParseLines(Spread(replace, divider) + rest, state, search, before)
         == ParseLines(rest, InReplace, search, before + replace)
    decreases |replace|
  {
    if replace == [] {
      DropDivider(divider, rest, state, search, before);
      assert before + replace == before;
    } else {
      var line, more := replace[..1], Spread(replace[1..], divider) + rest;
      assert Spread(replace, divider) + rest == [divider] + (line + more);
      DropDivider(divider, line + more, state, search, before);
      ReadPlain(line, more, InReplace, search, before);
      ReadSpread(replace[1..], divider, rest, InReplace, search, before + line);
      assert before + line + replace[1..] == before + replace;
    }
  }

  predicate Fenced(m: Marks) { AreMarks(m) && Fence(m.open) && Fence(m.divider) && Fence(m.close) }

  function SpreadBlock(b: Block, m: Marks): seq<string>
  {
    [m.open] + (b.search + (Spread(b.replace, m.divider) + [m.close]))
  }

  lemma SpreadBlockSeparate(b: Block, m: Marks)
    requires Fenced(m) && Separate(b.search) && AllLines(b.replace)
    ensures Separate(SpreadBlock(b, m))
  {
    SpreadSeparate(b.replace, m.divider);
    SeparateConcat(Spread(b.replace, m.divider), [m.close]);
    SeparateConcat(b.search, Spread(b.replace, m.divider) + [m.close]);
    SeparateConcat([m.open], b.search + (Spread(b.replace, m.divider) + [m.close]));
  }

  lemma ReadSpreadBlock(b: Block, m: Marks, rest: seq<string>, search: seq<string>, replace: seq<string>)
    requires AreMarks(m) && MarkerFree(b)
    ensures ParseLines(SpreadBlock(b, m) + rest, Outside, search, replace)
         == [b] + ParseLines(rest, Outside, b.search, b.replace)
  {
    var last := [m.close] + rest;
    var middle := Spread(b.replace, m.divider) + last;
    assert SpreadBlock(b, m) + rest == [m.open] + (b.search + middle);
    ReadOpen(m.open, b.search + middle, Outside, search, replace);
    ReadPlain(b.search, middle, InSearch, [], []);
    assert [] + b.search == b.search && [] + b.replace == b.replace;
    ReadSpread(b.replace, m.divider, last, InSearch, b.search, []);
    ReadClose(m.close, rest, b.search, b.replace);
  }

  function SpreadAll(blocks: seq<Block>, m: Marks): seq<string>
  {
    if blocks == [] then [] else SpreadBlock(blocks[0], m) + SpreadAll(blocks[1..], m)
  }

  lemma {:induction false} SpreadAllReads(blocks: seq<Block>, m: Marks, search: seq<string>, replace: seq<string>)
    requires Fenced(m) && forall i :: 0 <= i < |blocks| ==> Readable(blocks[i])
    ensures Separate(SpreadAll(blocks, m))
    ensures ParseLines(SpreadAll(blocks, m), Outside, search, replace) == blocks
  {
    if blocks != [] {
      var rest := SpreadAll(blocks[1..], m);
      SpreadBlockSeparate(blocks[0], m);
      SpreadAllReads(blocks[1..], m, blocks[0].search, blocks[0].replace);
      SeparateConcat(SpreadBlock(blocks[0], m), rest);
      ReadSpreadBlock(blocks[0], m, rest, search, replace);
      assert blocks == [blocks[0]] + blocks[1..];
    }
  }

  /** Where the reader stands: what it has collected, and that the line to come cannot run into it. */
  ghost predicate Collected(lines: seq<string>, state: State, search: seq<string>, replace: seq<string>)
  {
    && (!state.Outside? ==> Separate(search) && AllLines(replace))
    && (state.InSearch? && search != [] && lines != [] ==>
          !(search[|search| - 1][|search[|search| - 1]| - 1] == '\r' && lines[0] == "\n"))
  }

  lemma {:induction false} ParsedBlocksAreApart(lines: seq<string>, state: State,
                                                search: seq<string>, replace: seq<string>)
    requires LinesOfText(lines) && Collected(lines, state, search, replace)
    ensures forall b :: b in ParseLines(lines, state, search, replace) ==> Separate(b.search) && AllLines(b.replace)
    decreases |lines|
  {
    if lines != [] {
      var line, rest := lines[0], lines[1..];
      assert LinesOfText(rest) by { assert forall i :: 0 <= i < |rest| ==> rest[i] == lines[i + 1]; }
      match KindOf(line) {
        case SearchMark => ParsedBlocksAreApart(rest, InSearch, [], []);
        case Divider => ParsedBlocksAreApart(rest, if state.InSearch? then InReplace else state, search, replace);
        case ReplaceMark => ParsedBlocksAreApart(rest, Outside, search, replace);
        case Plain =>
          if rest != [] {
            assert IsLine(line);
            if state.InSearch? { SeparateConcat(search, [line]); }
            ParsedBlocksAreApart(rest, state, if state.InSearch? then search + [line] else search,
                                 if state.InReplace? then replace + [line] else replace);
          }
      }
    }
  }

  /** The block lists that some patch text parses to are exactly the lists of readable blocks. */
  lemma ParserRange(blocks: seq<Block>)
    ensures (exists patch :: ParsePatchBlocks(patch) == blocks)
        <==> forall i :: 0 <= i < |blocks| ==> Readable(blocks[i])
  {
    if patch :| ParsePatchBlocks(patch) == blocks {
      SplitIsLines(patch);
      ParsedBlocksAreMarkerFree(SplitLines(patch), Outside, [], []);
      ParsedBlocksAreApart(SplitLines(patch), Outside, [], []);
      forall i | 0 <= i < |blocks| ensures Readable(blocks[i]) { assert blocks[i] in blocks; }
    }
    if forall i :: 0 <= i < |blocks| ==> Readable(blocks[i]) {
      Markers();
      MarkersAreFences();
      SomeTextReads(blocks, Marks("<<<<<<< SEARCH\n", "=======\n", ">>>>>>> REPLACE\n"));
    }
  }

  lemma SomeTextReads(blocks: seq<Block>, m: Marks)
    requires Fenced(m) && forall i :: 0 <= i < |blocks| ==> Readable(blocks[i])
    ensures exists patch :: ParsePatchBlocks(patch) == blocks
  {
    var lines := SpreadAll(blocks, m);
    SpreadAllReads(blocks, m, [], []);
    SplitConcat(lines);
    assert ParsePatchBlocks(Concat(lines)) == blocks;
  }
}
