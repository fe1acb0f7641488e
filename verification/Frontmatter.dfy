/** The OKF frontmatter printer and the small YAML reader it pairs with. */
module Frontmatter {
  import opened Text

  datatype Value = Flag(b: bool) | Scalar(s: string) | Items(items: seq<string>) | Nothing
  datatype Pair = Pair(key: string, value: Value)

  // ----- printing

  predicate Special(v: string)
  {
    exists i :: 0 <= i < |v| && v[i] in {':', '#', '&', '*', '{', '}', '[', ']', '|', '>', '<', '%', '@', '`'}
  }

  /** Items that fit an inline list. */
  predicate Inline(items: seq<string>)
  {
    forall i :: 0 <= i < |items| ==> ',' !in items[i] && '[' !in items[i] && ']' !in items[i]
  }

  function BlockLines(items: seq<string>): (lines: seq<string>)
    ensures |lines| == |items|
    ensures forall i :: 0 <= i < |items| ==> lines[i] == "  - " + items[i]
  {
    seq(|items|, i requires 0 <= i < |items| => "  - " + items[i])
  }

  /** What follows "key:" on the line of a pair. */
  function Tail(v: Value): string
  {
    match v
    case Items(items) => if Inline(items) then " [" + Join(items, ", ") + "]" else ""
    case Flag(b) => if b then " true" else " false"
    case Scalar(s) => if Special(s) then " \"" + s + "\"" else " " + s
    case Nothing => " None"
  }

  function PrintPair(p: Pair): seq<string>
  {
    [p.key + ":" + Tail(p.value)] + (if p.value.Items? && !Inline(p.value.items) then BlockLines(p.value.items) else [])
  }

  function PrintAll(m: seq<Pair>): (lines: seq<string>)
  {
    if m == [] then [] else PrintPair(m[0]) + PrintAll(m[1..])
  }

  /** The serializer, between its two fences. */
  method Serialize(okf: seq<Pair>) returns (lines: seq<string>)
    ensures lines == ["---"] + PrintAll(okf) + ["---"]
  {
    lines := ["---"];
    assert okf[0..] == okf;
    for k := 0 to |okf|
      invariant lines + PrintAll(okf[k..]) == ["---"] + PrintAll(okf)
    {
      ghost var rest := PrintAll(okf[k + 1..]);
      assert PrintAll(okf[k..]) == PrintPair(okf[k]) + rest by { assert okf[k..][1..] == okf[k + 1..]; }
      ghost var before := lines;
      lines := AppendPair(lines, okf[k]);
      Reassociate(before, PrintPair(okf[k]), rest);
    }
    assert lines + [] == lines;
    lines := lines + ["---"];
  }

  /** One turn of the serializer's loop. */
  method AppendPair(before: seq<string>, p: Pair) returns (lines: seq<string>)
    ensures lines == before + PrintPair(p)
  {
    var key := p.key;
    match p.value
    case Items(items) =>
      if Inline(items) {
        lines := before + [key + ": [" + Join(items, ", ") + "]"];
        SameHead(key, " [" + Join(items, ", ") + "]", key + ": [" + Join(items, ", ") + "]");
      } else {
        lines := AppendItems(before + [key + ":"], items);
        SameHead(key, "", key + ":");
      }
    case Flag(b) =>
      lines := before + [key + ": " + if b then "true" else "false"];
      SameHead(key, if b then " true" else " false", key + ": " + if b then "true" else "false");
    case Scalar(s) =>
      if Special(s) {
        lines := before + [key + ": \"" + s + "\""];
        SameHead(key, " \"" + s + "\"", key + ": \"" + s + "\"");
      } else {
        lines := before + [key + ": " + s];
        SameHead(key, " " + s, key + ": " + s);
      }
    case Nothing =>
      lines := before + [key + ": None"];
      SameHead(key, " None", key + ": None");
  }

  method AppendItems(before: seq<string>, items: seq<string>) returns (lines: seq<string>)
    ensures lines == before + BlockLines(items)
  {
    lines := before;
    for j := 0 to |items|
      invariant lines == before + BlockLines(items)[..j]
    {
      lines := lines + ["  - " + items[j]];
    }
  }

  lemma SameHead(key: string, tail: string, line: string)
    requires |line| == |key| + 1 + |tail|
    requires line[..|key|] == key && line[|key|] == ':' && line[|key| + 1..] == tail
    ensures line == key + ":" + tail
  {
  }

  // ----- reading

  /** `dict[key] = value` */
  function Put(out: seq<Pair>, key: string, value: Value): (r: seq<Pair>)
  {
    if out == [] then [Pair(key, value)]
    else if out[0].key == key then [Pair(key, value)] + out[1..]
    else [out[0]] + Put(out[1..], key, value)
  }

  /** The "- ..." lines that follow a key, blank lines skipped: the items, and how many lines they take. */
  function BlockItems(lines: seq<string>): (r: (seq<string>, nat))
    ensures r.1 <= |lines|
  {
    if lines == [] then ([], 0)
    else if Strip(lines[0]) == "" then
      var r := BlockItems(lines[1..]); (r.0, r.1 + 1)
    else if StartsWith(LStrip(lines[0]), "- ") then
      var r := BlockItems(lines[1..]); ([Strip(LStrip(lines[0])[2..])] + r.0, r.1 + 1)
    else ([], 0)
  }

  predicate IsQuote(c: char) { c == '"' || c == '\'' }

  /** `s.strip('"\'')` */
  function StripQuotes(s: string): (r: string)
    ensures |r| <= |s|
    decreases |s|
  {
    if s != "" && IsQuote(s[0]) then StripQuotes(s[1..])
    else if s != "" && IsQuote(s[|s| - 1]) then StripQuotes(s[..|s| - 1])
    else s
  }

  /** `[x.strip().strip('"\'') for x in s.split(",") if x.strip()]` */
  function ListItems(s: string): seq<string>
    decreases |s|
  {
    var i := Find(s, ',');
    var first := if Strip(s[..i]) == "" then [] else [StripQuotes(Strip(s[..i]))];
    if i == |s| then first else first + ListItems(s[i + 1..])
  }

  /** `rest[1:-1]` */
  function Inside(rest: string): string
  {
    if |rest| < 2 then "" else rest[1..|rest| - 1]
  }

  predicate Quoted(rest: string)
  {
    rest != "" && IsQuote(rest[0]) && rest[0] == rest[|rest| - 1]
  }

  function ReadValue(rest: string): Value
    requires rest != ""
  {
    if rest[0] == '[' && rest[|rest| - 1] == ']' then
      var inner := Strip(Inside(rest));
      if inner == "" then Items([]) else Items(ListItems(inner))
    else if rest in {"true", "True", "yes"} then Flag(true)
    else if rest in {"false", "False", "no"} then Flag(false)
    else if rest in {"null", "None", "~"} then Nothing
    else if Quoted(rest) then Scalar(Inside(rest))
    else Scalar(rest)
  }

  /** A line that holds no pair: blank, a comment, without a colon, or indented. */
  predicate Skipped(line: string)
  {
    || Strip(line) == "" || Strip(line)[0] == '#' || (':' !in line && !StartsWith(line, " "))
    || StartsWith(line, " ") || StartsWith(line, "\t")
  }

  function KeyOf(line: string): string { Strip(line[..Find(line, ':')]) }

  function RestOf(line: string): string
  {
    var i := Find(line, ':'); if i < |line| then Strip(line[i + 1..]) else ""
  }

  /** The dict `out` after reading `lines`. */
  function ParseLines(lines: seq<string>, out: seq<Pair>): (m: seq<Pair>)
    decreases |lines|
  {
    if lines == [] then out
    else if Skipped(lines[0]) then ParseLines(lines[1..], out)
    else
      var key, rest := KeyOf(lines[0]), RestOf(lines[0]);
      if rest == "" then
        var (items, taken) := BlockItems(lines[1..]);
        if items != [] then ParseLines(lines[1 + taken..], Put(out, key, Items(items)))
        else ParseLines(lines[1..], Put(out, key, Scalar("")))
      else ParseLines(lines[1..], Put(out, key, ReadValue(rest)))
  }

  /** `_parse_simple_yaml` as the program runs it. */
  method ParseSimpleYaml(lines: seq<string>) returns (out: seq<Pair>)
    ensures out == ParseLines(lines, [])
  {
    out := [];
    var i := 0;
    while i < |lines|
      invariant 0 <= i <= |lines|
      invariant ParseLines(lines[i..], out) == ParseLines(lines, [])
      decreases |lines| - i
    {
      if Skipped(lines[i]) {
        assert lines[i..][0] == lines[i] && lines[i..][1..] == lines[i + 1..];
        i := i + 1;
      } else {
        i, out := ReadPair(lines, i, out);
      }
    }
    assert lines[|lines|..] == [];
  }

  lemma ValueTurn(lines: seq<string>, i: nat, out: seq<Pair>)
    requires i < |lines| && !Skipped(lines[i]) && RestOf(lines[i]) != ""
    ensures ParseLines(lines[i..], out)
         == ParseLines(lines[i + 1..], Put(out, KeyOf(lines[i]), ReadValue(RestOf(lines[i]))))
  {
    assert lines[i..][0] == lines[i] && lines[i..][1..] == lines[i + 1..];
  }

  lemma BareTurn(line: string, tail: seq<string>, out: seq<Pair>, items: seq<string>, taken: nat)
    requires !Skipped(line) && RestOf(line) == "" && BlockItems(tail) == (items, taken)
    ensures ParseLines([line] + tail, out) ==
              if items != [] then ParseLines(tail[taken..], Put(out, KeyOf(line), Items(items)))
              else ParseLines(tail, Put(out, KeyOf(line), Scalar("")))
  {
    var lines := [line] + tail;
    assert lines[1..] == tail && lines[1 + taken..] == tail[taken..];
  }

  lemma BlockTurn(lines: seq<string>, i: nat, out: seq<Pair>, items: seq<string>, j: nat)
    requires i < |lines| && !Skipped(lines[i]) && RestOf(lines[i]) == ""
    requires i < j <= |lines| && BlockItems(lines[i + 1..]) == (items, j - (i + 1))
    ensures ParseLines(lines[i..], out) ==
              if items != [] then ParseLines(lines[j..], Put(out, KeyOf(lines[i]), Items(items)))
              else ParseLines(lines[i + 1..], Put(out, KeyOf(lines[i]), Scalar("")))
  {
    var line, tail, taken := lines[i], lines[i + 1..], j - (i + 1);
    BareTurn(line, tail, out, items, taken);
    assert lines[i..] == [line] + tail && tail[taken..] == lines[j..];
  }

  /** A turn of the loop at a line with a key. */
  method ReadPair(lines: seq<string>, i: nat, out: seq<Pair>) returns (next: nat, read: seq<Pair>)
    requires i < |lines| && !Skipped(lines[i])
    ensures i < next <= |lines|
    ensures ParseLines(lines[next..], read) == ParseLines(lines[i..], out)
  {
    var key, rest := KeyOf(lines[i]), RestOf(lines[i]);
    if rest != "" {
      ValueTurn(lines, i, out);
      return i + 1, Put(out, key, ReadValue(rest));
    }
    var items, j := ReadBlock(lines, i + 1);
    BlockTurn(lines, i, out, items, j);
    if items != [] {
      return j, Put(out, key, Items(items));
    }
    return i + 1, Put(out, key, Scalar(""));
  }

  /** The inner loop over the lines after a bare key. */
  method ReadBlock(lines: seq<string>, start: nat) returns (items: seq<string>, j: nat)
    requires start <= |lines|
    ensures start <= j <= |lines|
    ensures items == BlockItems(lines[start..]).0 && j == start + BlockItems(lines[start..]).1
  {
    items, j := [], start;
    ghost var whole := BlockItems(lines[start..]);
    ghost var rest := whole;
    while j < |lines|
      invariant start <= j <= |lines|
      invariant rest == BlockItems(lines[j..])
      invariant items + rest.0 == whole.0 && j - start + rest.1 == whole.1
      decreases |lines| - j
    {
      BlockStep(lines, j);
      if Strip(lines[j]) == "" {
        rest := BlockItems(lines[j + 1..]);
        j := j + 1;
        continue;
      }
      if !StartsWith(LStrip(lines[j]), "- ") {
        return;
      }
      rest := BlockItems(lines[j + 1..]);
      items := items + [Strip(LStrip(lines[j])[2..])];
      j := j + 1;
    }
    assert lines[j..] == [];
  }

  lemma BlockStep(lines: seq<string>, j: nat)
    requires j < |lines|
    ensures var l := lines[j]; var r := BlockItems(lines[j + 1..]);
            BlockItems(lines[j..]) ==
              if Strip(l) == "" then (r.0, r.1 + 1)
              else if StartsWith(LStrip(l), "- ") then ([Strip(LStrip(l)[2..])] + r.0, r.1 + 1)
              else ([], 0)
  {
    assert lines[j..][0] == lines[j] && lines[j..][1..] == lines[j + 1..];
  }

  // ----- what reading makes of a printed value

  /** The items that come back from an inline list. */
  function InlineItems(items: seq<string>): (r: seq<string>)
    ensures |r| <= |items|
  {
    if items == [] then []
    else (if Strip(items[0]) == "" then [] else [StripQuotes(Strip(items[0]))]) + InlineItems(items[1..])
  }

  function BlockReadItems(items: seq<string>): (r: seq<string>)
    ensures |r| == |items|
    ensures forall i :: 0 <= i < |items| ==> r[i] == Strip(items[i])
  {
    seq(|items|, i requires 0 <= i < |items| => Strip(items[i]))
  }

  function ReadBack(v: Value): Value
  {
    match v
    case Flag(b) => v
    case Nothing => v
    case Items(items) => Items(if Inline(items) then InlineItems(items) else BlockReadItems(items))
    case Scalar(s) =>
      if Special(s) then v
      else if Strip(s) == "" then Scalar("")
      else ReadValue(Strip(s))
  }

  predicate Word(s: string)
  {
    s in {"true", "True", "yes", "false", "False", "no", "null", "None", "~"}
  }

  predicate InlineFaithful(x: string)
  {
    Trimmed(x) && x != "" && !IsQuote(x[0]) && !IsQuote(x[|x| - 1])
  }

  /** The values that survive printing and reading. */
  predicate Faithful(v: Value)
  {
    match v
    case Flag(b) => true
    case Nothing => true
    case Scalar(s) => Special(s) || (Trimmed(s) && !Word(s) && !Quoted(s))
    case Items(items) =>
      if Inline(items) then forall i :: 0 <= i < |items| ==> InlineFaithful(items[i])
      else forall i :: 0 <= i < |items| ==> Trimmed(items[i])
  }

  lemma {:induction false} StripQuotesIff(s: string)
    ensures StripQuotes(s) == s <==> s == "" || (!IsQuote(s[0]) && !IsQuote(s[|s| - 1]))
  {
    if s != "" && IsQuote(s[0]) {
      assert |StripQuotes(s[1..])| < |s|;
    } else if s != "" && IsQuote(s[|s| - 1]) {
      assert |StripQuotes(s[..|s| - 1])| < |s|;
    }
  }

  lemma InlineItemIff(x: string)
    ensures Strip(x) != "" && StripQuotes(Strip(x)) == x <==> InlineFaithful(x)
  {
    StripTrimmedIff(x);
    StripQuotesIff(Strip(x));
    if StripQuotes(Strip(x)) == x {
      StripLonger(x);
    }
  }

  lemma StripLonger(x: string)
    requires StripQuotes(Strip(x)) == x
    ensures Strip(x) == x
  {
    assert |Strip(x)| == |x|;
    StripFull(x);
  }

  lemma StripFull(x: string)
    requires |Strip(x)| == |x|
    ensures Strip(x) == x
  {
    assert LStrip(x) == x;
  }

  lemma {:induction false} InlineItemsIff(items: seq<string>)
    ensures InlineItems(items) == items <==> forall i :: 0 <= i < |items| ==> InlineFaithful(items[i])
  {
    if items != [] {
      var x, rest := items[0], items[1..];
      InlineItemIff(x);
      InlineItemsIff(rest);
      assert items == [x] + rest;
      if Strip(x) == "" {
        assert |InlineItems(items)| < |items|;
      } else {
        assert InlineItems(items)[0] == StripQuotes(Strip(x)) && InlineItems(items)[1..] == InlineItems(rest);
        assert (forall i :: 0 <= i < |items| ==> InlineFaithful(items[i])) <==>
            InlineFaithful(x) && forall i :: 0 <= i < |rest| ==> InlineFaithful(rest[i]) by {
          assert forall i :: 0 <= i < |rest| ==> rest[i] == items[i + 1];
          assert forall i :: 0 < i < |items| ==> items[i] == rest[i - 1];
        }
      }
    }
  }

  lemma BlockItemsIff(items: seq<string>)
    ensures BlockReadItems(items) == items <==> forall i :: 0 <= i < |items| ==> Trimmed(items[i])
  {
    forall i | 0 <= i < |items|
      ensures BlockReadItems(items)[i] == items[i] <==> Trimmed(items[i])
    {
      StripTrimmedIff(items[i]);
    }
  }

  lemma ScalarIff(s: string)
    requires !Special(s)
    ensures ReadBack(Scalar(s)) == Scalar(s) <==> Faithful(Scalar(s))
  {
    var rest := Strip(s);
    StripTrimmedIff(s);
    if rest != "" {
      assert |Inside(rest)| < |s|;
    }
  }

  /** A value reads back as it was printed exactly when it is faithful. */
  lemma ReadBackIff(v: Value)
    ensures ReadBack(v) == v <==> Faithful(v)
  {
    match v
    case Flag(b) =>
    case Nothing =>
    case Items(items) =>
      if Inline(items) {
        InlineItemsIff(items);
      } else {
        BlockItemsIff(items);
      }
    case Scalar(s) =>
      if !Special(s) { ScalarIff(s); }
  }

  // ----- the inline list

  /** What one element of the list contributes. */
  function Element(x: string): seq<string>
  {
    if Strip(x) == "" then [] else [StripQuotes(Strip(x))]
  }

  lemma ListItemsLast(x: string)
    requires ',' !in x
    ensures ListItems(x) == Element(x)
  {
    FindIs(x, ',', "");
    assert x + "" == x && x[..|x|] == x;
  }

  lemma ListItemsCons(s: string, x: string, rest: string)
    requires ',' !in x && s == x + "," + rest
    ensures ListItems(s) == Element(x) + ListItems(rest)
  {
    FindIs(x, ',', "," + rest);
    assert s == x + ("," + rest);
    assert s[..|x|] == x && s[|x| + 1..] == rest;
  }

  lemma CutAtComma(s: string) returns (x: string, rest: string)
    ensures ',' !in x && |rest| <= |s|
    ensures Find(s, ',') == |s| ==> s == x
    ensures Find(s, ',') < |s| ==> s == x + "," + rest && |rest| < |s|
  {
    var i := Find(s, ',');
    x, rest := s[..i], if i < |s| then s[i + 1..] else "";
  }

  lemma ElementAfterSpace(c: char, x: string)
    requires IsSpace(c) && ',' !in x
    ensures Element([c] + x) == Element(x) && ',' !in [c] + x
  {
    LStripSpaces([c], x);
  }

  lemma ListItemsAfterSpace(c: char, s: string)
    requires IsSpace(c)
    ensures ListItems([c] + s) == ListItems(s)
  {
    var x, rest := CutAtComma(s);
    var cx, cs := [c] + x, [c] + s;
    assert ',' !in cx && Element(cx) == Element(x) by { ElementAfterSpace(c, x); }
    if Find(s, ',') == |s| {
      ListItemsLast(x);
      ListItemsLast(cx);
    } else {
      assert cs == cx + "," + rest;
      ListItemsCons(s, x, rest);
      ListItemsCons(cs, cx, rest);
    }
  }

  lemma {:induction false} ListItemsBeforeSpace(s: string, c: char)
    requires IsSpace(c)
    ensures ListItems(s + [c]) == ListItems(s)
    decreases |s|
  {
    var x, rest := CutAtComma(s);
    assert c != ',';
    if Find(s, ',') == |s| {
      StripBeforeSpace(x, c);
      ListItemsLast(x);
      ListItemsLast(x + [c]);
    } else {
      ListItemsCons(s, x, rest);
      assert s + [c] == x + "," + (rest + [c]);
      ListItemsCons(s + [c], x, rest + [c]);
      ListItemsBeforeSpace(rest, c);
    }
  }

  lemma {:induction false} ListItemsLStrip(s: string)
    ensures ListItems(LStrip(s)) == ListItems(s)
  {
    if s != "" && IsSpace(s[0]) {
      ListItemsLStrip(s[1..]);
      ListItemsAfterSpace(s[0], s[1..]);
      assert [s[0]] + s[1..] == s;
    }
  }

  lemma {:induction false} ListItemsRStrip(s: string)
    ensures ListItems(RStrip(s)) == ListItems(s)
  {
    if s != "" && IsSpace(s[|s| - 1]) {
      var front, c := s[..|s| - 1], s[|s| - 1];
      assert s == front + [c] && RStrip(s) == RStrip(front);
      ListItemsBeforeSpace(front, c);
      ListItemsRStrip(front);
    } else {
      assert RStrip(s) == s;
    }
  }

  lemma {:induction false} ListItemsOfJoin(items: seq<string>)
    requires Inline(items) && items != []
    ensures ListItems(Join(items, ", ")) == InlineItems(items)
  {
    var x, rest := items[0], items[1..];
    assert InlineItems(items) == Element(x) + InlineItems(rest);
    if rest == [] {
      ListItemsLast(x);
    } else {
      assert Inline(rest) by { assert forall i :: 0 <= i < |rest| ==> rest[i] == items[i + 1]; }
      JoinStep(items, ", ");
      ListItemsOfSeparated(Join(items, ", "), x, Join(rest, ", "));
      ListItemsOfJoin(rest);
    }
  }

  lemma JoinStep(items: seq<string>, sep: string)
    requires |items| > 1
    ensures Join(items, sep) == items[0] + sep + Join(items[1..], sep)
  {
  }

  lemma ListItemsOfSeparated(s: string, x: string, rest: string)
    requires ',' !in x && s == x + ", " + rest
    ensures ListItems(s) == Element(x) + ListItems(rest)
  {
    assert s == x + "," + ([' '] + rest);
    ListItemsCons(s, x, [' '] + rest);
    ListItemsAfterSpace(' ', rest);
  }

  lemma JoinedListReadsBack(items: seq<string>)
    requires Inline(items)
    ensures ReadValue("[" + Join(items, ", ") + "]") == ReadBack(Items(items))
  {
    var joined := Join(items, ", ");
    var inner := Strip(joined);
    assert Inside("[" + joined + "]") == joined;
    assert ListItems(inner) == ListItems(joined) by {
      ListItemsLStrip(joined);
      ListItemsRStrip(LStrip(joined));
    }
    if items != [] {
      ListItemsOfJoin(items);
      if inner == "" {
        assert Find("", ',') == 0 && ListItems("") == [];
      }
    }
  }

  // ----- one pair

  predicate GoodKey(k: string)
  {
    k != "" && Trimmed(k) && ':' !in k && k[0] != '#' && !StartsWith(k, "- ")
  }

  lemma HeadCut(k: string, t: string)
    requires GoodKey(k)
    ensures var line := k + ":" + t; KeyOf(line) == k && RestOf(line) == Strip(t)
  {
    var line := k + ":" + t;
    assert Find(line, ':') == |k| by {
      FindIs(k, ':', ":" + t);
      assert line == k + (":" + t);
    }
    assert line[..|k|] == k && line[|k| + 1..] == t;
    StripTrimmedIff(k);
  }

  lemma NoDash(k: string, line: string)
    requires GoodKey(k) && |k| < |line| && line[..|k|] == k && line[|k|] == ':'
    ensures !StartsWith(line, "- ")
  {
    if |k| == 1 {
      assert line[1] == ':';
    } else {
      assert line[0] == k[0] && line[1] == k[1] && k[..2] == [k[0], k[1]];
    }
  }

  lemma HeadShown(k: string, line: string)
    requires GoodKey(k) && |k| < |line| && line[0] == k[0] && line[|k|] == ':'
    ensures LStrip(line) == line && Strip(line) != "" && Strip(line)[0] == k[0] && !IsSpace(line[0])
  {
    assert |k| < |RStrip(line)| by { StripKeeps(line, |k|); }
  }

  lemma Visible(line: string)
    requires line != "" && !IsSpace(line[0])
    ensures !StartsWith(line, " ") && !StartsWith(line, "\t")
  {
    assert line[..1][0] == line[0];
  }

  lemma HeadNotSkipped(k: string, line: string)
    requires GoodKey(k) && |k| < |line| && line[..|k|] == k && line[|k|] == ':'
    ensures !Skipped(line) && Strip(line) != "" && !StartsWith(LStrip(line), "- ")
  {
    assert line[0] == k[0];
    assert LStrip(line) == line && Strip(line) != "" && Strip(line)[0] != '#' && !IsSpace(line[0])
    by { HeadShown(k, line); }
    assert !StartsWith(line, "- ") by { NoDash(k, line); }
    assert !StartsWith(line, " ") && !StartsWith(line, "\t") by { Visible(line); }
    assert ':' in line;
  }

  lemma HeadLine(k: string, t: string)
    requires GoodKey(k)
    ensures var line := k + ":" + t; !Skipped(line) && KeyOf(line) == k && RestOf(line) == Strip(t)
    ensures var line := k + ":" + t; Strip(line) != "" && !StartsWith(LStrip(line), "- ")
  {
    HeadCut(k, t);
    HeadNotSkipped(k, k + ":" + t);
  }

  /** A line that ends a block list, or no line at all. */
  predicate Stops(rest: seq<string>)
  {
    rest == [] || (Strip(rest[0]) != "" && !StartsWith(LStrip(rest[0]), "- "))
  }

  lemma BlockLineReads(x: string)
    ensures var l := "  - " + x;
            Strip(l) != "" && StartsWith(LStrip(l), "- ") && Strip(LStrip(l)[2..]) == Strip(x)
  {
    var l := "  - " + x;
    assert l == "  " + ("- " + x);
    LStripSpaces("  ", "- " + x);
    assert LStrip(l) == "- " + x;
    StripKeeps(LStrip(l), 0);
    assert ("- " + x)[..2] == "- " && ("- " + x)[2..] == x;
  }

  lemma BlockCons(l: string, x: string, rest: seq<string>)
    requires l == "  - " + x
    ensures BlockItems([l] + rest) == ([Strip(x)] + BlockItems(rest).0, BlockItems(rest).1 + 1)
  {
    BlockLineReads(x);
    assert ([l] + rest)[1..] == rest;
  }

  lemma FirstBlockLine(items: seq<string>)
    requires items != []
    ensures BlockLines(items) == ["  - " + items[0]] + BlockLines(items[1..])
  {
    var a, b := BlockLines(items), BlockLines(items[1..]);
    assert |a| == 1 + |b|;
    assert forall i :: 0 < i < |a| ==> a[i] == b[i - 1] by {
      forall i | 0 < i < |a| ensures a[i] == b[i - 1] { assert items[i] == items[1..][i - 1]; }
    }
  }

  lemma FirstBlockItem(items: seq<string>)
    requires items != []
    ensures BlockReadItems(items) == [Strip(items[0])] + BlockReadItems(items[1..])
  {
    var a, b := BlockReadItems(items), BlockReadItems(items[1..]);
    assert forall i :: 0 < i < |a| ==> a[i] == b[i - 1] by {
      forall i | 0 < i < |a| ensures a[i] == b[i - 1] { assert items[i] == items[1..][i - 1]; }
    }
  }

  lemma {:induction false} BlockReads(items: seq<string>, rest: seq<string>)
    requires Stops(rest)
    ensures BlockItems(BlockLines(items) + rest).0 == BlockReadItems(items)
    ensures BlockItems(BlockLines(items) + rest).1 == |items|
  {
    if items == [] {
      assert BlockLines(items) + rest == rest;
    } else {
      var l, more := "  - " + items[0], items[1..];
      FirstBlockLine(items);
      FirstBlockItem(items);
      Reassociate([l], BlockLines(more), rest);
      BlockCons(l, items[0], BlockLines(more) + rest);
      BlockReads(more, rest);
    }
  }

  predicate BareHead(v: Value)
  {
    match v
    case Items(items) => !Inline(items)
    case Scalar(s) => !Special(s) && Strip(s) == ""
    case Flag(_) => false
    case Nothing => false
  }

  lemma StripAround(a: char, s: string, z: char)
    requires !IsSpace(a) && !IsSpace(z)
    ensures Strip(" " + ([a] + s + [z])) == [a] + s + [z]
  {
    LStripSpaces(" ", [a] + s + [z]);
  }

  lemma QuotedReads(s: string, q: string)
    requires q == "\"" + s + "\""
    ensures ReadValue(q) == Scalar(s)
  {
    assert Inside(q) == s;
  }

  predicate TailReadsBack(v: Value)
  {
    var rest := Strip(Tail(v));
    if BareHead(v) then rest == "" else rest != "" && ReadValue(rest) == ReadBack(v)
  }

  lemma ConstantTails()
    ensures TailReadsBack(Flag(true)) && TailReadsBack(Flag(false)) && TailReadsBack(Nothing)
  {
    assert " " + "true" == " true" && " " + "false" == " false" && " " + "None" == " None";
    WordTail(Flag(true), "true");
    WordTail(Flag(false), "false");
    WordTail(Nothing, "None");
  }

  lemma WordTail(v: Value, word: string)
    requires Tail(v) == " " + word && word != "" && Trimmed(word) && !BareHead(v) && ReadValue(word) == ReadBack(v)
    ensures TailReadsBack(v)
  {
    LStripSpaces(" ", word);
    StripTrimmedIff(word);
  }

  lemma ItemsTail(items: seq<string>)
    ensures TailReadsBack(Items(items))
  {
    if Inline(items) {
      var joined := Join(items, ", ");
      StripAround('[', joined, ']');
      assert Tail(Items(items)) == " " + (['['] + joined + [']']);
      assert ['['] + joined + [']'] == "[" + joined + "]";
      JoinedListReadsBack(items);
    }
  }

  lemma SpecialTail(s: string)
    requires Special(s)
    ensures TailReadsBack(Scalar(s))
  {
    var q := ['"'] + s + ['"'];
    assert Tail(Scalar(s)) == " " + q;
    assert Strip(Tail(Scalar(s))) == q by { StripAround('"', s, '"'); }
    assert ReadValue(q) == Scalar(s) by { QuotedReads(s, q); }
  }

  lemma PlainTail(s: string)
    requires !Special(s)
    ensures TailReadsBack(Scalar(s))
  {
    LStripSpaces(" ", s);
  }

  lemma TailReads(v: Value)
    ensures TailReadsBack(v)
  {
    match v
    case Flag(b) => ConstantTails();
    case Nothing => ConstantTails();
    case Items(items) => ItemsTail(items);
    case Scalar(s) => if Special(s) { SpecialTail(s); } else { PlainTail(s); }
  }

  /** Reading a line `key:` and the items below it. */
  lemma BareHeadReads(head: string, key: string, items: seq<string>, rest: seq<string>, out: seq<Pair>)
    requires !Skipped(head) && KeyOf(head) == key && RestOf(head) == "" && Stops(rest)
    ensures ParseLines([head] + BlockLines(items) + rest, out) ==
              ParseLines(rest, Put(out, key, if items == [] then Scalar("") else Items(BlockReadItems(items))))
  {
    var lines := [head] + BlockLines(items) + rest;
    assert lines[1..] == BlockLines(items) + rest && lines[1 + |items|..] == rest;
    BlockReads(items, rest);
  }

  /** Reading the lines of one pair stores what its value reads back as. */
  lemma PairReadsBack(p: Pair, rest: seq<string>, out: seq<Pair>)
    requires GoodKey(p.key) && Stops(rest)
    ensures ParseLines(PrintPair(p) + rest, out) == ParseLines(rest, Put(out, p.key, ReadBack(p.value)))
  {
    var head := p.key + ":" + Tail(p.value);
    assert !Skipped(head) && KeyOf(head) == p.key && RestOf(head) == Strip(Tail(p.value)) by {
      HeadLine(p.key, Tail(p.value));
    }
    TailReads(p.value);
    if BareHead(p.value) {
      var items := if p.value.Items? then p.value.items else [];
      BareHeadReads(head, p.key, items, rest, out);
      assert PrintPair(p) == [head] + BlockLines(items);
    } else {
      assert PrintPair(p) == [head] && ([head] + rest)[1..] == rest;
    }
  }

  // ----- the whole frontmatter

  ghost predicate Distinct(m: seq<Pair>)
  {
    forall i, j :: 0 <= i < j < |m| ==> m[i].key != m[j].key
  }

  ghost predicate GoodKeys(m: seq<Pair>)
  {
    Distinct(m) && forall i :: 0 <= i < |m| ==> GoodKey(m[i].key)
  }

  function ReadBackAll(m: seq<Pair>): (r: seq<Pair>)
    ensures |r| == |m|
    ensures forall i :: 0 <= i < |m| ==> r[i] == Pair(m[i].key, ReadBack(m[i].value))
  {
    seq(|m|, i requires 0 <= i < |m| => Pair(m[i].key, ReadBack(m[i].value)))
  }

  lemma {:induction false} PutNew(out: seq<Pair>, key: string, value: Value)
    requires forall i :: 0 <= i < |out| ==> out[i].key != key
    ensures Put(out, key, value) == out + [Pair(key, value)]
  {
    if out != [] {
      PutNew(out[1..], key, value);
      assert out == [out[0]] + out[1..];
    }
  }

  lemma {:induction false} PrintedStops(m: seq<Pair>)
    requires GoodKeys(m)
    ensures Stops(PrintAll(m))
  {
    if m != [] {
      HeadLine(m[0].key, Tail(m[0].value));
      assert PrintAll(m)[0] == PrintPair(m[0])[0];
    }
  }

  /** Reading the first pair of a printed map. */
  lemma FirstReadsBack(m: seq<Pair>, out: seq<Pair>)
    requires GoodKeys(m) && m != [] && forall i :: 0 <= i < |out| ==> out[i].key != m[0].key
    ensures ParseLines(PrintAll(m), out) == ParseLines(PrintAll(m[1..]), out + [Pair(m[0].key, ReadBack(m[0].value))])
  {
    assert Stops(PrintAll(m[1..])) by {
      assert forall j :: 0 <= j < |m[1..]| ==> m[1..][j] == m[j + 1];
      PrintedStops(m[1..]);
    }
    PairReadsBack(m[0], PrintAll(m[1..]), out);
    PutNew(out, m[0].key, ReadBack(m[0].value));
  }

  /** No key of `m` is in `out` yet. */
  ghost predicate NewKeys(m: seq<Pair>, out: seq<Pair>)
  {
    forall i, j :: 0 <= i < |out| && 0 <= j < |m| ==> out[i].key != m[j].key
  }

  lemma NewKeysNext(m: seq<Pair>, out: seq<Pair>, v: Value)
    requires GoodKeys(m) && NewKeys(m, out) && m != []
    ensures GoodKeys(m[1..]) && NewKeys(m[1..], out + [Pair(m[0].key, v)])
  {
    assert forall j :: 0 <= j < |m[1..]| ==> m[1..][j] == m[j + 1];
  }

  lemma FirstOfAll(m: seq<Pair>)
    requires m != []
    ensures ReadBackAll(m) == [Pair(m[0].key, ReadBack(m[0].value))] + ReadBackAll(m[1..])
  {
    var a, b := ReadBackAll(m), ReadBackAll(m[1..]);
    assert forall i :: 0 < i < |a| ==> a[i] == b[i - 1] by {
      forall i | 0 < i < |a| ensures a[i] == b[i - 1] { assert m[i] == m[1..][i - 1]; }
    }
  }

  lemma {:induction false} AllReadsBack(m: seq<Pair>, out: seq<Pair>)
    requires GoodKeys(m) && NewKeys(m, out)
    ensures ParseLines(PrintAll(m), out) == out + ReadBackAll(m)
  {
    if m == [] {
    } else {
      var rest, q := m[1..], Pair(m[0].key, ReadBack(m[0].value));
      assert ParseLines(PrintAll(m), out) == ParseLines(PrintAll(rest), out + [q]) by { FirstReadsBack(m, out); }
      assert ParseLines(PrintAll(rest), out + [q]) == out + [q] + ReadBackAll(rest) by {
        NewKeysNext(m, out, q.value);
        AllReadsBack(rest, out + [q]);
      }
      FirstOfAll(m);
      Reassociate(out, [q], ReadBackAll(rest));
    }
  }

  /** Reading the printed lines returns the printed map exactly when every value is faithful. */
  lemma RoundTripIff(m: seq<Pair>)
    requires GoodKeys(m)
    ensures ParseLines(PrintAll(m), []) == m <==> forall i :: 0 <= i < |m| ==> Faithful(m[i].value)
  {
    AllReadsBack(m, []);
    assert [] + ReadBackAll(m) == ReadBackAll(m);
    forall i | 0 <= i < |m|
      ensures ReadBackAll(m)[i] == m[i] <==> Faithful(m[i].value)
    {
      ReadBackIff(m[i].value);
    }
  }

  // ----- how values look in print

  lemma Beside(k: string, tail: string, text: string)
    requires tail == " " + text
    ensures [k + ":" + tail] + [] == [k + ": " + text]
  {
    assert k + ":" + (" " + text) == k + ": " + text;
  }

  /** The line of a flag, of nothing and of a text, which is quoted if one of fourteen characters is in it. */
  lemma PrintedScalars(k: string, s: string, i: nat)
    ensures PrintPair(Pair(k, Flag(true))) == [k + ": " + "true"]
    ensures PrintPair(Pair(k, Flag(false))) == [k + ": " + "false"]
    ensures PrintPair(Pair(k, Nothing)) == [k + ": " + "None"]
    ensures i < |s| && s[i] in {':', '#', '&', '*', '{', '}', '[', ']', '|', '>', '<', '%', '@', '`'} ==>
              PrintPair(Pair(k, Scalar(s))) == [k + ": " + ("\"" + s + "\"")]
    ensures (forall j | 0 <= j < |s| ::
               s[j] !in {':', '#', '&', '*', '{', '}', '[', ']', '|', '>', '<', '%', '@', '`'}) ==>
              PrintPair(Pair(k, Scalar(s))) == [k + ": " + s]
  {
    Beside(k, " true", "true");
    Beside(k, " false", "false");
    Beside(k, " None", "None");
    Beside(k, " " + s, s);
    assert " \"" + s + "\"" == " " + ("\"" + s + "\"");
    Beside(k, " \"" + s + "\"", "\"" + s + "\"");
  }

  /** A list stands on the line of its key, unless an item holds a comma or a bracket: then its items follow. */
  lemma PrintedLists(k: string, items: seq<string>, i: nat)
    ensures (forall x | x in items :: ',' !in x && '[' !in x && ']' !in x) ==>
              PrintPair(Pair(k, Items(items))) == [k + ": " + ("[" + Join(items, ", ") + "]")]
    ensures i < |items| && (',' in items[i] || '[' in items[i] || ']' in items[i]) ==>
              var lines := PrintPair(Pair(k, Items(items)));
              && |lines| == |items| + 1 && lines[0] == k + ":"
              && forall j :: 0 <= j < |items| ==> lines[j + 1] == "  - " + items[j]
  {
    var joined := Join(items, ", ");
    assert " [" + joined + "]" == " " + ("[" + joined + "]");
    Beside(k, " [" + joined + "]", "[" + joined + "]");
    assert k + ":" + "" == k + ":";
  }

  // ----- hand-written lines

  /** A line that gives `k` the text `w`, with any white space around both. */
  ghost predicate KeyLine(line: string, k: string, w: string)
  {
    exists pad: string, a: string, b: string ::
      AllSpace(pad) && AllSpace(a) && AllSpace(b) && line == k + pad + ":" + (a + w + b)
  }

  lemma StripPadded(a: string, w: string, b: string)
    requires AllSpace(a) && AllSpace(b) && Trimmed(w)
    ensures Strip(a + w + b) == w
  {
    LStripSpaces(a, w + b);
    assert a + (w + b) == a + w + b;
    if w == "" {
      assert w + b == b && b + "" == b;
      LStripSpaces(b, "");
    } else {
      assert LStrip(w + b) == w + b;
      RStripSpaces(w, b);
    }
  }

  lemma PaddedHead(k: string, pad: string, t: string)
    requires GoodKey(k) && AllSpace(pad)
    ensures var line := k + pad + ":" + t; !Skipped(line) && KeyOf(line) == k && RestOf(line) == Strip(t)
  {
    var line, n := k + pad + ":" + t, |k + pad|;
    assert Find(line, ':') == n by {
      FindIs(k + pad, ':', ":" + t);
      assert line == k + pad + (":" + t);
    }
    assert line[..n] == k + pad && line[n + 1..] == t && line[0] == k[0];
    assert Strip(k + pad) == k by {
      StripPadded("", k, pad);
      assert "" + k + pad == k + pad;
    }
    assert LStrip(line) == line && !IsSpace(line[0]);
    StripKeeps(line, 0);
    Visible(line);
  }

  lemma KeyLineReads(line: string, k: string, w: string, rest: seq<string>, out: seq<Pair>)
    requires GoodKey(k) && KeyLine(line, k, w) && Trimmed(w) && w != ""
    ensures ParseLines([line] + rest, out) == ParseLines(rest, Put(out, k, ReadValue(w)))
  {
    var pad: string, a: string, b: string :|
      AllSpace(pad) && AllSpace(a) && AllSpace(b) && line == k + pad + ":" + (a + w + b);
    PaddedHead(k, pad, a + w + b);
    StripPadded(a, w, b);
    assert ([line] + rest)[1..] == rest;
  }

  /** The nine words, anywhere in the frontmatter. */
  lemma WordsRead(line: string, k: string, w: string, rest: seq<string>, out: seq<Pair>)
    requires GoodKey(k) && KeyLine(line, k, w)
    ensures w in {"true", "True", "yes"} ==>
              ParseLines([line] + rest, out) == ParseLines(rest, Put(out, k, Flag(true)))
    ensures w in {"false", "False", "no"} ==>
              ParseLines([line] + rest, out) == ParseLines(rest, Put(out, k, Flag(false)))
    ensures w in {"null", "None", "~"} ==>
              ParseLines([line] + rest, out) == ParseLines(rest, Put(out, k, Nothing))
  {
    if w in {"true", "True", "yes", "false", "False", "no", "null", "None", "~"} {
      WordsTrimmed(w);
      KeyLineReads(line, k, w, rest, out);
    }
  }

  lemma WordsTrimmed(w: string)
    requires w in {"true", "True", "yes", "false", "False", "no", "null", "None", "~"}
    ensures w != "" && Trimmed(w) && w[0] != '['
  {
  }

  /** Text in single or double quotes loses them, whatever it says; other text that is no word and no
      bracketed list is kept as it is. */
  lemma TextRead(line: string, k: string, s: string, rest: seq<string>, out: seq<Pair>)
    requires GoodKey(k)
    ensures KeyLine(line, k, "'" + s + "'") || KeyLine(line, k, "\"" + s + "\"") ==>
              ParseLines([line] + rest, out) == ParseLines(rest, Put(out, k, Scalar(s)))
    ensures KeyLine(line, k, s) && PlainText(s) ==>
              ParseLines([line] + rest, out) == ParseLines(rest, Put(out, k, Scalar(s)))
  {
    if KeyLine(line, k, "'" + s + "'") { QuotedLine(line, k, "'" + s + "'", s, rest, out); }
    if KeyLine(line, k, "\"" + s + "\"") { QuotedLine(line, k, "\"" + s + "\"", s, rest, out); }
    if KeyLine(line, k, s) && PlainText(s) { KeyLineReads(line, k, s, rest, out); }
  }

  predicate PlainText(s: string)
  {
    && s != "" && Trimmed(s) && !(s[0] == '[' && s[|s| - 1] == ']')
    && s !in {"true", "True", "yes", "false", "False", "no", "null", "None", "~"}
    && !(s[0] == s[|s| - 1] == '"') && !(s[0] == s[|s| - 1] == '\'')
  }

  lemma QuotedLine(line: string, k: string, q: string, s: string, rest: seq<string>, out: seq<Pair>)
    requires GoodKey(k) && KeyLine(line, k, q) && (q == "'" + s + "'" || q == "\"" + s + "\"")
    ensures ParseLines([line] + rest, out) == ParseLines(rest, Put(out, k, Scalar(s)))
  {
    assert |q| == |s| + 2 && q[1..|s| + 1] == s && IsQuote(q[0]) && q[0] == q[|s| + 1];
    assert ReadValue(q) == Scalar(s) by {
      assert q !in {"true", "True", "yes", "false", "False", "no", "null", "None", "~"} by { WordsUnquoted(q); }
    }
    KeyLineReads(line, k, q, rest, out);
  }

  lemma WordsUnquoted(q: string)
    requires q != "" && IsQuote(q[0])
    ensures q !in {"true", "True", "yes", "false", "False", "no", "null", "None", "~"}
  {
  }

  /** A line that stores nothing: blank, a comment, without a colon, or indented. */
  lemma NoPairRead(line: string, rest: seq<string>, out: seq<Pair>)
    requires || AllSpace(line) || (exists pad: string, s: string :: AllSpace(pad) && line == pad + "#" + s)
             || ':' !in line || line[0] == ' ' || line[0] == '\t'
    ensures ParseLines([line] + rest, out) == ParseLines(rest, out)
  {
    assert ([line] + rest)[1..] == rest;
    if AllSpace(line) {
      assert line + "" == line;
      LStripSpaces(line, "");
    } else if pad: string, s: string :| AllSpace(pad) && line == pad + "#" + s {
      assert line == pad + ("#" + s);
      LStripSpaces(pad, "#" + s);
      StripKeeps("#" + s, 0);
    } else if line != "" {
      assert line[..1] == [line[0]];
    }
  }

  // ----- hand-written lists

  predicate AllQuotes(s: string) { forall i :: 0 <= i < |s| ==> s[i] == '"' || s[i] == '\'' }

  predicate Unquoted(x: string)
  {
    x == "" || (x[0] != '"' && x[0] != '\'' && x[|x| - 1] != '"' && x[|x| - 1] != '\'')
  }

  lemma {:induction false} QuotesStripped(a: string, x: string, b: string)
    requires AllQuotes(a) && AllQuotes(b) && Unquoted(x)
    ensures StripQuotes(a + x + b) == x
    decreases |a| + |b|
  {
    var s := a + x + b;
    if a != "" {
      assert s[1..] == a[1..] + x + b;
      QuotesStripped(a[1..], x, b);
    } else if b != "" && (x != "" || |b| == 1) {
      assert s[..|s| - 1] == a + x + b[..|b| - 1];
      QuotesStripped(a, x, b[..|b| - 1]);
    } else if b != "" {
      assert s[1..] == "" + x + b[1..];
      QuotesStripped("", x, b[1..]);
    } else {
      assert s == x;
    }
  }

  /** `item` is `x` with any quotes around it. */
  ghost predicate QuotedItem(item: string, x: string)
  {
    && item != "" && Trimmed(item)
    && exists a: string, b: string :: AllQuotes(a) && AllQuotes(b) && Unquoted(x) && item == a + x + b
  }

  lemma {:induction false} QuotedItemsRead(items: seq<string>, xs: seq<string>)
    requires |items| == |xs| && forall i :: 0 <= i < |xs| ==> QuotedItem(items[i], xs[i])
    ensures InlineItems(items) == xs
  {
    if items != [] {
      var item, x := items[0], xs[0];
      var a: string, b: string :| AllQuotes(a) && AllQuotes(b) && Unquoted(x) && item == a + x + b;
      QuotesStripped(a, x, b);
      StripTrimmedIff(item);
      QuotedItemsRead(items[1..], xs[1..]);
      assert xs == [x] + xs[1..];
    }
  }

  /** An inline list gives its items without the quotes around them. */
  lemma InlineListRead(line: string, k: string, items: seq<string>, xs: seq<string>, rest: seq<string>,
                       out: seq<Pair>)
    requires GoodKey(k) && Inline(items) && KeyLine(line, k, "[" + Join(items, ", ") + "]")
    requires |items| == |xs| && forall i :: 0 <= i < |xs| ==> QuotedItem(items[i], xs[i])
    ensures ParseLines([line] + rest, out) == ParseLines(rest, Put(out, k, Items(xs)))
  {
    JoinedListReadsBack(items);
    QuotedItemsRead(items, xs);
    KeyLineReads(line, k, "[" + Join(items, ", ") + "]", rest, out);
  }

  /** Lines of a block list: each blank, or a dash and the next item behind any indentation. */
  ghost predicate ListLines(lines: seq<string>, xs: seq<string>)
  {
    if lines == [] then xs == []
    else
      || (AllSpace(lines[0]) && ListLines(lines[1..], xs))
      || (xs != [] && Bullet(lines[0], xs[0]) && ListLines(lines[1..], xs[1..]))
  }

  ghost predicate Bullet(line: string, x: string)
  {
    exists pad: string, a: string, b: string ::
      AllSpace(pad) && AllSpace(a) && AllSpace(b) && Trimmed(x) && line == pad + "- " + (a + x + b)
  }

  lemma BulletReads(line: string, x: string)
    requires Bullet(line, x)
    ensures Strip(line) != "" && StartsWith(LStrip(line), "- ") && Strip(LStrip(line)[2..]) == x
  {
    var pad: string, a: string, b: string :|
      AllSpace(pad) && AllSpace(a) && AllSpace(b) && Trimmed(x) && line == pad + "- " + (a + x + b);
    DashCut(pad, "- ", a + x + b);
    StripPadded(a, x, b);
  }

  lemma DashCut(pad: string, dash: string, t: string)
    requires AllSpace(pad) && |dash| == 2 && !IsSpace(dash[0])
    ensures var line := pad + dash + t; Strip(line) != "" && StartsWith(LStrip(line), dash) && LStrip(line)[2..] == t
  {
    var item := dash + t;
    assert pad + dash + t == pad + item && item[..2] == dash && item[2..] == t;
    LStripSpaces(pad, item);
    StripKeeps(item, 0);
  }

  /** What the line before a block's rest makes of it. */
  function Before(l: string, r: (seq<string>, nat)): (seq<string>, nat)
  {
    if Strip(l) == "" then (r.0, r.1 + 1)
    else if StartsWith(LStrip(l), "- ") then ([Strip(LStrip(l)[2..])] + r.0, r.1 + 1)
    else ([], 0)
  }

  lemma BlockFrom(lines: seq<string>, l: string, more: seq<string>)
    requires lines == [l] + more
    ensures BlockItems(lines) == Before(l, BlockItems(more))
  {
    assert lines[1..] == more;
  }

  lemma {:induction false} ListLinesRead(lines: seq<string>, xs: seq<string>, rest: seq<string>)
    requires ListLines(lines, xs) && Stops(rest)
    ensures BlockItems(lines + rest) == (xs, |lines|)
  {
    if lines == [] {
      assert lines + rest == rest;
    } else {
      var l, more := lines[0], lines[1..];
      assert lines + rest == [l] + (more + rest);
      if AllSpace(l) && ListLines(more, xs) {
        ListLinesRead(more, xs, rest);
        BlankFirst(l, more + rest, (xs, |more|));
      } else {
        var x, others := xs[0], xs[1..];
        assert xs == [x] + others;
        ListLinesRead(more, others, rest);
        assert BlockItems([l] + (more + rest)) == ([x] + others, |more| + 1) by {
          BulletReads(l, x);
          BulletFirst(l, x, more + rest, (others, |more|));
        }
      }
    }
  }

  lemma BulletFirst(l: string, x: string, more: seq<string>, r: (seq<string>, nat))
    requires Strip(l) != "" && StartsWith(LStrip(l), "- ") && Strip(LStrip(l)[2..]) == x && BlockItems(more) == r
    ensures BlockItems([l] + more) == ([x] + r.0, r.1 + 1)
  {
    assert Before(l, r) == ([x] + r.0, r.1 + 1);
    assert BlockItems([l] + more) == Before(l, r) by { BlockFrom([l] + more, l, more); }
  }

  lemma BlankFirst(l: string, more: seq<string>, r: (seq<string>, nat))
    requires AllSpace(l) && BlockItems(more) == r
    ensures BlockItems([l] + more) == (r.0, r.1 + 1)
  {
    assert l + "" == l;
    LStripSpaces(l, "");
    BlockFrom([l] + more, l, more);
  }

  /** A bare key takes the list below it, blank lines skipped, up to the first other line; without one its
      value is the empty text. */
  lemma BlockListRead(head: string, k: string, lines: seq<string>, xs: seq<string>, rest: seq<string>,
                      out: seq<Pair>)
    requires GoodKey(k) && KeyLine(head, k, "") && ListLines(lines, xs) && Stops(rest)
    ensures ParseLines([head] + (lines + rest), out) ==
              if xs != [] then ParseLines(rest, Put(out, k, Items(xs)))
              else ParseLines(lines + rest, Put(out, k, Scalar("")))
  {
    var pad: string, a: string, b: string :|
      AllSpace(pad) && AllSpace(a) && AllSpace(b) && head == k + pad + ":" + (a + "" + b);
    PaddedHead(k, pad, a + "" + b);
    StripPadded(a, "", b);
    ListLinesRead(lines, xs, rest);
    BareTurn(head, lines + rest, out, xs, |lines|);
    assert (lines + rest)[|lines|..] == rest;
  }

  // ----- two lines with one key

  /** A line that does not look like a list item starts afresh. */
  lemma {:induction false} BlockItemsAppend(a: seq<string>, b: seq<string>)
    requires Stops(b)
    ensures BlockItems(a + b) == BlockItems(a)
  {
    if a == [] {
      assert a + b == b;
    } else {
      var l, more := a[0], a[1..];
      BlockItemsAppend(more, b);
      BlockFrom(a, l, more);
      BlockFrom(a + b, l, more + b);
    }
  }

  lemma {:induction false} ParseAppend(a: seq<string>, b: seq<string>, out: seq<Pair>)
    requires Stops(b)
    ensures ParseLines(a + b, out) == ParseLines(b, ParseLines(a, out))
    decreases |a|
  {
    if a == [] {
      assert a + b == b;
      return;
    }
    var l, more := a[0], a[1..];
    assert (a + b)[0] == l && (a + b)[1..] == more + b;
    if Skipped(l) {
      ParseAppend(more, b, out);
    } else if RestOf(l) != "" {
      ParseAppend(more, b, Put(out, KeyOf(l), ReadValue(RestOf(l))));
    } else {
      var (items, taken) := BlockItems(more);
      assert a == [l] + more && a + b == [l] + (more + b);
      BlockItemsAppend(more, b);
      if items != [] {
        ParseAppend(more[taken..], b, Put(out, KeyOf(l), Items(items)));
        ListedAppend(l, more, b, out, items, taken);
      } else {
        ParseAppend(more, b, Put(out, KeyOf(l), Scalar("")));
        EmptyAppend(l, more, b, out, taken);
      }
    }
  }

  lemma ListedAppend(l: string, more: seq<string>, b: seq<string>, out: seq<Pair>, items: seq<string>, taken: nat)
    requires !Skipped(l) && RestOf(l) == "" && items != []
    requires BlockItems(more) == (items, taken) && BlockItems(more + b) == (items, taken)
    requires var listed := Put(out, KeyOf(l), Items(items));
             ParseLines(more[taken..] + b, listed) == ParseLines(b, ParseLines(more[taken..], listed))
    ensures ParseLines([l] + (more + b), out) == ParseLines(b, ParseLines([l] + more, out))
  {
    BareTurn(l, more, out, items, taken);
    BareTurn(l, more + b, out, items, taken);
    assert (more + b)[taken..] == more[taken..] + b;
  }

  lemma EmptyAppend(l: string, more: seq<string>, b: seq<string>, out: seq<Pair>, taken: nat)
    requires !Skipped(l) && RestOf(l) == "" && BlockItems(more) == ([], taken) && BlockItems(more + b) == ([], taken)
    requires var empty := Put(out, KeyOf(l), Scalar(""));
             ParseLines(more + b, empty) == ParseLines(b, ParseLines(more, empty))
    ensures ParseLines([l] + (more + b), out) == ParseLines(b, ParseLines([l] + more, out))
  {
    BareTurn(l, more, out, [], taken);
    BareTurn(l, more + b, out, [], taken);
  }

  lemma {:induction false} PutMembers(out: seq<Pair>, k: string, v: Value)
    requires Distinct(out)
    ensures Distinct(Put(out, k, v)) && Pair(k, v) in Put(out, k, v)
    ensures forall p: Pair :: p.key != k ==> (p in Put(out, k, v) <==> p in out)
    ensures forall p: Pair :: p in Put(out, k, v) ==> p.key == k || p in out
  {
    if out != [] {
      var first, more := out[0], out[1..];
      assert out == [first] + more;
      assert Distinct(more);
      if first.key == k {
        assert Put(out, k, v) == [Pair(k, v)] + more;
      } else {
        PutMembers(more, k, v);
        assert Put(out, k, v) == [first] + Put(more, k, v);
      }
    }
  }

  lemma {:induction false} ParsedDistinct(lines: seq<string>, out: seq<Pair>)
    requires Distinct(out)
    ensures Distinct(ParseLines(lines, out))
    decreases |lines|
  {
    if lines == [] {
    } else if Skipped(lines[0]) {
      ParsedDistinct(lines[1..], out);
    } else {
      var key, rest := KeyOf(lines[0]), RestOf(lines[0]);
      var (items, taken) := BlockItems(lines[1..]);
      PutMembers(out, key, Items(items));
      PutMembers(out, key, Scalar(""));
      if rest != "" {
        PutMembers(out, key, ReadValue(rest));
        ParsedDistinct(lines[1..], Put(out, key, ReadValue(rest)));
      } else {
        ParsedDistinct(lines[1 + taken..], Put(out, key, Items(items)));
        ParsedDistinct(lines[1..], Put(out, key, Scalar("")));
      }
    }
  }

  /** Of two lines with one key the later wins: a line at the end sets its key to what the line reads as by
      itself, whatever was read before, and leaves every other key alone. Each key has one value. */
  lemma LaterWins(before: seq<string>, line: string, k: string, v: Value)
    requires ParseLines([line], []) == [Pair(k, v)] && Stops([line])
    ensures var m := ParseLines(before + [line], []);
            && Distinct(m) && Pair(k, v) in m
            && forall p: Pair :: p.key != k ==> (p in m <==> p in ParseLines(before, []))
  {
    var out := ParseLines(before, []);
    ParsedDistinct(before, []);
    ParseAppend(before, [line], []);
    LoneLine(line, out);
    LoneLine(line, []);
    PutMembers(out, k, v);
  }

  lemma LoneLine(line: string, out: seq<Pair>)
    requires !Skipped(line)
    ensures ParseLines([line], out)
         == Put(out, KeyOf(line), if RestOf(line) == "" then Scalar("") else ReadValue(RestOf(line)))
  {
    assert [line][1..] == [] && BlockItems([]) == ([], 0);
  }

  // ----- as one text

  predicate OneLine(p: Pair)
  {
    && NoBreaks(p.key)
    && match p.value
       case Scalar(s) => NoBreaks(s)
       case Items(items) => forall i :: 0 <= i < |items| ==> NoBreaks(items[i])
       case Flag(_) => true
       case Nothing => true
  }

  predicate PrintedLine(l: string) { l != "" && NoBreaks(l) }

  lemma {:induction false} JoinNoBreaks(parts: seq<string>)
    requires forall i :: 0 <= i < |parts| ==> NoBreaks(parts[i])
    ensures NoBreaks(Join(parts, ", "))
  {
    if |parts| > 1 { JoinNoBreaks(parts[1..]); }
  }

  lemma TailNoBreaks(p: Pair)
    requires OneLine(p)
    ensures NoBreaks(Tail(p.value))
  {
    match p.value
    case Items(items) => if Inline(items) { JoinNoBreaks(items); }
    case Flag(_) =>
    case Nothing =>
    case Scalar(_) =>
  }

  lemma PairPrintsLines(p: Pair)
    requires OneLine(p)
    ensures forall l :: l in PrintPair(p) ==> PrintedLine(l)
  {
    TailNoBreaks(p);
    assert PrintedLine(p.key + ":" + Tail(p.value));
  }

  lemma {:induction false} AllPrintLines(m: seq<Pair>)
    requires forall i :: 0 <= i < |m| ==> OneLine(m[i])
    ensures forall l :: l in PrintAll(m) ==> PrintedLine(l)
  {
    if m != [] {
      PairPrintsLines(m[0]);
      AllPrintLines(m[1..]);
    }
  }

  /** The text between the fences reads back as the printed map exactly when every value is faithful. */
  lemma TextRoundTripIff(m: seq<Pair>)
    requires GoodKeys(m) && forall i :: 0 <= i < |m| ==> OneLine(m[i])
    ensures ParseLines(PlainLines(Join(PrintAll(m), "\n")), []) == m
        <==> forall i :: 0 <= i < |m| ==> Faithful(m[i].value)
  {
    AllPrintLines(m);
    assert forall i :: 0 <= i < |PrintAll(m)| ==> PrintedLine(PrintAll(m)[i]);
    PlainLinesOfJoin(PrintAll(m));
    RoundTripIff(m);
  }
}
