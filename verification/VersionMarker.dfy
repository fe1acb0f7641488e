/** Version markers: stamping one on a file, finding it again, and comparing two of them. */
module VersionMarker {
  import opened Options
  import opened Text

  // ----- versions

  predicate Digit(c: char) { '0' <= c <= '9' }

  predicate Number(s: string) { s != "" && forall i :: 0 <= i < |s| ==> Digit(s[i]) }

  function ValueOf(s: string): nat
    requires forall i :: 0 <= i < |s| ==> Digit(s[i])
  {
    if s == "" then 0
    else
      assert Digit(s[|s| - 1]);
      10 * ValueOf(s[..|s| - 1]) + (s[|s| - 1] - '0') as nat
  }

  datatype Version = Version(major: nat, minor: nat, patch: nat, pre: string)

  /** `s.split("-", 1)`, lowercasing what follows the dash. */
  function CutPre(s: string): (r: (string, string))
  {
    var i := Find(s, '-');
    (s[..i], if i < |s| then Lower(s[i + 1..]) else "")
  }

  /** `ParsedVersion.parse`, nothing where it raises. A fourth segment is neither read nor kept. */
  function ParseVersion(raw: string): (r: Option<Version>)
  {
    var t := Strip(raw);
    var s := if t != "" && (t[0] == 'v' || t[0] == 'V') then t[1..] else t;
    FromParts(Split(CutPre(s).0, '.'), CutPre(s).1)
  }

  function FromParts(parts: seq<string>, pre: string): Option<Version>
  {
    if |parts| in {3, 4} && Number(parts[0]) && Number(parts[1]) && Number(parts[2]) then
      Some(Version(ValueOf(parts[0]), ValueOf(parts[1]), ValueOf(parts[2]), pre))
    else None
  }

  const KNOWN_PRE_RELEASE_ORDER: map<string, nat> :=
    map["alpha" := 1, "a" := 1, "beta" := 2, "b" := 2, "rc" := 3, "pre" := 3, "preview" := 3,
        "final" := 99, "stable" := 99, "" := 100]

  function PreRank(pre: string): nat
  {
    if pre in KNOWN_PRE_RELEASE_ORDER then KNOWN_PRE_RELEASE_ORDER[pre] else 50
  }

  predicate Less(a: Version, b: Version)
  {
    || a.major < b.major
    || (a.major == b.major && a.minor < b.minor)
    || (a.major == b.major && a.minor == b.minor && a.patch < b.patch)
    || (a.major == b.major && a.minor == b.minor && a.patch == b.patch && PreRank(a.pre) < PreRank(b.pre))
  }

  function Order(a: Version, b: Version): int { if Less(a, b) then -1 else if Less(b, a) then 1 else 0 }

  /** `compare_marker`, nothing where it raises. */
  function CompareMarker(src: string, dst: string): Option<int>
  {
    Compared(ParseVersion(src), ParseVersion(dst))
  }

  function Compared(s: Option<Version>, d: Option<Version>): Option<int>
  {
    if s.None? || d.None? then None else Some(Order(s.value, d.value))
  }

  // ----- markers

  const KIT_ID := "standard-ai-workflow-kit:"

  /** The characters of the pre-release segment in a marker. */
  predicate PreChar(c: char) { Digit(c) || 'a' <= c <= 'z' || 'A' <= c <= 'Z' || c == '.' }

  /** The version part of the marker pattern: three or four numbers, perhaps "-" and a pre-release. */
  predicate IsVersion(v: string)
  {
    var i := Find(v, '-');
    var parts := Split(v[..i], '.');
    && |parts| in {3, 4} && (forall k :: 0 <= k < |parts| ==> Number(parts[k]))
    && (i < |v| ==> i + 1 < |v| && forall k :: i < k < |v| ==> PreChar(v[k]))
  }

  /** Any twelve characters, none of them white space other than a blank. */
  predicate CommentPrefix(s: string)
  {
    |s| <= 12 && forall i :: 0 <= i < |s| ==> s[i] == ' ' || !IsSpace(s[i])
  }

  /** The marker pattern as a grammar: how a line is made of white space, a comment prefix, the kit's
      name, white space, "v", the version, and perhaps a comment closer. */
  ghost predicate MarkerLine(line: string, version: string)
  {
    exists lead: string, prefix: string, gap: string, tail: string ::
      MadeOf(line, lead, prefix, gap, version, tail)
  }

  ghost predicate MadeOf(line: string, lead: string, prefix: string, gap: string, version: string, tail: string)
  {
    && line == lead + prefix + KIT_ID + (gap + "v" + (version + tail))
    && AllSpace(lead) && CommentPrefix(prefix) && gap != "" && AllSpace(gap) && IsVersion(version) && Closer(tail)
  }

  ghost predicate Closer(tail: string)
  {
    AllSpace(tail) || exists a: string, b: string :: AllSpace(a) && AllSpace(b) && tail == a + "-->" + b
  }

  /** What is left of the text after "v" once white space and a comment closer are taken off its end. */
  function Unclosed(s: string): string
  {
    var b := RStrip(s);
    if EndsWith(b, "-->") then RStrip(b[..|b| - 3]) else b
  }

  /** `MARKER_REGEX.match(line)`: the version of a marker line. */
  function MatchMarker(line: string): (r: Option<string>)
    ensures r.Some? ==> IsVersion(r.value)
  {
    var i := IndexOf(line, KIT_ID);
    if i == |line| || !CommentPrefix(LStrip(line[..i])) then None
    else
      var rest := line[i + |KIT_ID|..];
      var body := LStrip(rest);
      if |body| == |rest| || body == "" || body[0] != 'v' then None
      else
        var version := Unclosed(body[1..]);
        if IsVersion(version) then Some(version) else None
  }

  /** `parse_version_marker`: the first marker within the first five lines. */
  function FirstMarker(lines: seq<string>): (r: Option<string>)
    ensures r.Some? ==> IsVersion(r.value)
  {
    if lines == [] then None
    else if MatchMarker(lines[0]).Some? then MatchMarker(lines[0])
    else FirstMarker(lines[1..])
  }

  function MarkerOf(text: string): (r: Option<string>)
    ensures r.Some? ==> IsVersion(r.value)
  {
    var lines := PlainLines(text);
    FirstMarker(if |lines| <= 5 then lines else lines[..5])
  }

  method ParseVersionMarker(text: string) returns (version: Option<string>)
    ensures version == MarkerOf(text)
  {
    var all := PlainLines(text);
    var lines := if |all| <= 5 then all else all[..5];
    for i := 0 to |lines|
      invariant FirstMarker(lines[i..]) == FirstMarker(lines)
    {
      assert lines[i..][0] == lines[i] && lines[i..][1..] == lines[i + 1..];
      var m := MatchMarker(lines[i]);
      if m.Some? {
        return m;
      }
    }
    return None;
  }

  // ----- stamping

  const COMMENT_PREFIX_BY_SUFFIX: map<string, string> :=
    map[".md" := "<!-- ", ".markdown" := "<!-- ", ".py" := "# ", ".sh" := "# ", ".bash" := "# ", ".toml" := "# ",
        ".yaml" := "# ", ".yml" := "# ", ".txt" := "# ", ".cfg" := "# ", ".ini" := "# ", ".js" := "// ",
        ".ts" := "// ", ".tsx" := "// ", ".jsx" := "// ", ".go" := "// ", ".rs" := "// ", ".java" := "// ",
        ".css" := "/* ", ".html" := "<!-- "]

  predicate Supported(suffix: string) { Lower(suffix) in COMMENT_PREFIX_BY_SUFFIX }

  function FormatMarker(version: string, suffix: string): string
    requires Supported(suffix)
  {
    var prefix := COMMENT_PREFIX_BY_SUFFIX[Lower(suffix)];
    var closer := if Strip(prefix) == "<!--" then " -->" else "";
    RStrip(prefix + KIT_ID + " v" + version + closer)
  }

  /** `stamp_marker` */
  function Stamp(content: string, version: string, suffix: string): string
  {
    if !Supported(suffix) || MarkerOf(content).Some? then content
    else
      var marker := FormatMarker(version, suffix);
      if content == "" then marker + "\n"
      else if content[0] == '\n' then marker + content
      else marker + "\n\n" + content
  }

  // ----- the matcher finds exactly the marker lines

  lemma KitIdFacts()
    ensures |KIT_ID| == 25 && KIT_ID[0] == 's' && forall p :: 1 <= p <= 12 ==> KIT_ID[p] != 's'
  {
  }

  /** The kit's name stands where the comment prefix ends, not earlier. */
  lemma KitIdAt(lead: string, prefix: string, rest: string)
    requires AllSpace(lead) && CommentPrefix(prefix)
    ensures IndexOf(lead + prefix + KIT_ID + rest, KIT_ID) == |lead + prefix|
         && Has(lead + prefix + KIT_ID + rest, KIT_ID)
  {
    KitIdFacts();
    IdAt(lead, prefix, KIT_ID, rest);
  }

  lemma IdAt(lead: string, prefix: string, id: string, rest: string)
    requires AllSpace(lead) && CommentPrefix(prefix)
    requires |id| == 25 && id[0] == 's' && forall p :: 1 <= p <= 12 ==> id[p] != 's'
    ensures IndexOf(lead + prefix + id + rest, id) == |lead + prefix| && Has(lead + prefix + id + rest, id)
  {
    var line, i := lead + prefix + id + rest, |lead + prefix|;
    assert Occurs(line, id, i) by { assert line[i..i + |id|] == id; }
    forall j | 0 <= j < i
      ensures !Occurs(line, id, j)
    {
      if j < |lead| {
        assert line[j] == lead[j];
        Mismatch(line, id, j, 0);
      } else {
        assert line[i] == id[0];
        Mismatch(line, id, j, i - j);
      }
    }
    IndexIs(line, id, i);
  }

  /** A version begins with a digit and ends with a digit or a pre-release character. */
  lemma VersionEnds(v: string)
    requires IsVersion(v)
    ensures v != "" && Digit(v[0]) && PreChar(v[|v| - 1])
  {
    var i := Find(v, '-');
    var parts := Split(v[..i], '.');
    var last := parts[|parts| - 1];
    assert Number(parts[0]) && Number(last);
    SplitEnds(v[..i], '.');
    if i == |v| {
      assert v[..i] == v;
      assert v[|v| - 1] == last[|last| - 1];
    }
  }

  lemma {:induction false} SplitEnds(s: string, c: char)
    ensures var parts := Split(s, c);
            && parts[0] <= s
            && |parts[|parts| - 1]| <= |s| && parts[|parts| - 1] == s[|s| - |parts[|parts| - 1]|..]
    decreases |s|
  {
    var i := Find(s, c);
    if i < |s| {
      var parts, rest := Split(s, c), Split(s[i + 1..], c);
      SplitEnds(s[i + 1..], c);
      assert parts[|parts| - 1] == rest[|rest| - 1];
    }
  }

  lemma NotClosed(s: string)
    requires s != "" && s[|s| - 1] != '>'
    ensures !EndsWith(s, "-->")
  {
    if |s| >= 3 { assert s[|s| - 3..][2] == s[|s| - 1]; }
  }

  lemma UnclosedIs(version: string, tail: string)
    requires version != "" && PreChar(version[|version| - 1]) && Closer(tail)
    ensures Unclosed(version + tail) == version
  {
    if AllSpace(tail) {
      assert RStrip(version + tail) == version by { RStripSpaces(version, tail); }
      NotClosed(version);
    } else {
      var a: string, b: string :| AllSpace(a) && AllSpace(b) && tail == a + "-->" + b;
      assert version + tail == version + a + "-->" + b;
      ClosedIs(version, a, b);
    }
  }

  lemma ClosedIs(version: string, a: string, b: string)
    requires version != "" && PreChar(version[|version| - 1]) && AllSpace(a) && AllSpace(b)
    ensures Unclosed(version + a + "-->" + b) == version
  {
    var closed := version + a + "-->";
    assert RStrip(closed + b) == closed by { RStripSpaces(closed, b); }
    assert closed[..|closed| - 3] == version + a && closed[|closed| - 3..] == "-->";
    RStripSpaces(version, a);
  }

  lemma ClosedCuts(c: string, z: string)
    requires AllSpace(z)
    ensures var v := RStrip(c); Closer((c + "-->" + z)[|v|..]) && v == (c + "-->" + z)[..|v|]
  {
    var v := RStrip(c);
    var a := c[|v|..];
    RStripCuts(c);
    assert (c + "-->" + z)[|v|..] == a + "-->" + z;
  }

  lemma UnclosedCuts(s: string)
    ensures var v := Unclosed(s); |v| <= |s| && v == s[..|v|] && Closer(s[|v|..])
  {
    var b := RStrip(s);
    RStripCuts(s);
    if EndsWith(b, "-->") {
      var c, z := b[..|b| - 3], s[|b|..];
      assert s == c + "-->" + z by { assert b == c + "-->"; }
      ClosedCuts(c, z);
    }
  }

  lemma CommentPrefixTail(s: string)
    requires CommentPrefix(s)
    ensures CommentPrefix(LStrip(s))
  {
    LStripCuts(s);
  }

  lemma MadeMatches(line: string, lead: string, prefix: string, gap: string, version: string, tail: string)
    requires MadeOf(line, lead, prefix, gap, version, tail)
    ensures MatchMarker(line) == Some(version)
  {
    var body := "v" + (version + tail);
    var rest := gap + body;
    var i := |lead + prefix|;
    assert line == lead + prefix + KIT_ID + rest by { Reassociate(gap, "v", version + tail); }
    assert IndexOf(line, KIT_ID) == i && i < |line| by { KitIdAt(lead, prefix, rest); }
    assert line[..i] == lead + prefix && line[i + |KIT_ID|..] == rest;
    assert CommentPrefix(LStrip(line[..i])) by {
      LStripSpaces(lead, prefix);
      CommentPrefixTail(prefix);
    }
    assert LStrip(rest) == body by { LStripSpaces(gap, body); }
    assert body[1..] == version + tail;
    VersionEnds(version);
    UnclosedIs(version, tail);
  }

  lemma FrontCut(front: string) returns (lead: string, prefix: string)
    requires CommentPrefix(LStrip(front))
    ensures front == lead + prefix && AllSpace(lead) && CommentPrefix(prefix)
  {
    LStripCuts(front);
    prefix := LStrip(front);
    lead := front[..|front| - |prefix|];
  }

  lemma AfterV(body: string) returns (tail: string)
    requires body != "" && body[0] == 'v'
    ensures body == "v" + (Unclosed(body[1..]) + tail) && Closer(tail)
  {
    var after := body[1..];
    var n := |Unclosed(after)|;
    UnclosedCuts(after);
    tail := after[n..];
    assert after == after[..n] + tail;
    assert body == "v" + after;
  }

  lemma GapCut(rest: string, version: string, tail: string) returns (gap: string)
    requires LStrip(rest) == "v" + (version + tail) && |LStrip(rest)| < |rest|
    ensures rest == gap + "v" + (version + tail) && gap != "" && AllSpace(gap)
  {
    var body := "v" + (version + tail);
    gap := rest[..|rest| - |body|];
    assert rest == gap + body && AllSpace(gap) by { LStripCuts(rest); }
    Reassociate(gap, "v", version + tail);
  }

  lemma MatchedIsMade(line: string) returns (lead: string, prefix: string, gap: string, tail: string)
    requires MatchMarker(line).Some?
    ensures MadeOf(line, lead, prefix, gap, MatchMarker(line).value, tail)
  {
    var i := IndexOf(line, KIT_ID);
    var front, rest := line[..i], line[i + |KIT_ID|..];
    assert line == front + KIT_ID + rest by { CutAround(line, KIT_ID, i); }
    lead, prefix := FrontCut(front);
    tail := AfterV(LStrip(rest));
    gap := GapCut(rest, MatchMarker(line).value, tail);
  }

  lemma CutAround(t: string, m: string, i: nat)
    requires Occurs(t, m, i)
    ensures t == t[..i] + m + t[i + |m|..]
  {
  }

  /** The matcher returns a version exactly for the lines the pattern describes, and that version. */
  lemma MatchMarkerIff(line: string, version: string)
    ensures MatchMarker(line) == Some(version) <==> MarkerLine(line, version)
  {
    if MatchMarker(line) == Some(version) {
      var lead, prefix, gap, tail := MatchedIsMade(line);
      assert MadeOf(line, lead, prefix, gap, version, tail);
    }
    if MarkerLine(line, version) {
      var lead: string, prefix: string, gap: string, tail: string :| MadeOf(line, lead, prefix, gap, version, tail);
      MadeMatches(line, lead, prefix, gap, version, tail);
    }
  }

  ghost predicate IsMarker(line: string) { exists version: string :: MarkerLine(line, version) }

  lemma IsMarkerIff(line: string)
    ensures IsMarker(line) <==> MatchMarker(line).Some?
  {
    forall version: string
      ensures MatchMarker(line) == Some(version) <==> MarkerLine(line, version)
    {
      MatchMarkerIff(line, version);
    }
    if MatchMarker(line).Some? { assert MarkerLine(line, MatchMarker(line).value); }
  }

  lemma {:induction false} FirstMarkerAt(lines: seq<string>) returns (k: nat)
    ensures k <= |lines| && (forall j :: 0 <= j < k ==> !IsMarker(lines[j]))
    ensures if k < |lines| then FirstMarker(lines).Some? && MarkerLine(lines[k], FirstMarker(lines).value)
            else FirstMarker(lines).None?
  {
    if lines == [] { return 0; }
    IsMarkerIff(lines[0]);
    if MatchMarker(lines[0]).Some? {
      MatchMarkerIff(lines[0], MatchMarker(lines[0]).value);
      return 0;
    }
    var rest := lines[1..];
    k := FirstMarkerAt(rest);
    assert forall j :: 1 <= j < k + 1 ==> lines[j] == rest[j - 1];
    k := k + 1;
  }

  /** The marker of a text is its first marker line, if that is one of the first five. */
  lemma MarkerWithinFive(text: string) returns (k: nat)
    ensures var lines := PlainLines(text);
            && k <= |lines| && k <= 5 && (forall j :: 0 <= j < k ==> !IsMarker(lines[j]))
            && (if k < |lines| && k < 5 then MarkerOf(text).Some? && MarkerLine(lines[k], MarkerOf(text).value)
                else MarkerOf(text).None?)
  {
    var lines := PlainLines(text);
    var first := if |lines| <= 5 then lines else lines[..5];
    k := FirstMarkerAt(first);
    assert forall j :: 0 <= j < |first| ==> first[j] == lines[j];
  }

  // ----- what is stamped is found

  lemma {:induction false} SplitChars(s: string, c: char, k: nat)
    requires k < |s| && s[k] != c
    ensures exists i: nat, j: nat :: i < |Split(s, c)| && j < |Split(s, c)[i]| && Split(s, c)[i][j] == s[k]
    decreases |s|
  {
    var n := Find(s, c);
    var parts := Split(s, c);
    if k < n {
      assert parts[0][k] == s[k];
    } else {
      SplitChars(s[n + 1..], c, k - n - 1);
      var i: nat, j: nat :|
        i < |Split(s[n + 1..], c)| && j < |Split(s[n + 1..], c)[i]|
        && Split(s[n + 1..], c)[i][j] == s[n + 1..][k - n - 1];
      assert parts[i + 1][j] == s[k];
    }
  }

  lemma VersionUnbroken(v: string)
    requires IsVersion(v)
    ensures NoBreaks(v)
  {
    var n := Find(v, '-');
    var base := v[..n];
    forall k | 0 <= k < |v|
      ensures !IsBreak(v[k])
    {
      if k < n && v[k] != '.' {
        SplitChars(base, '.', k);
        var i: nat, j: nat :| i < |Split(base, '.')| && j < |Split(base, '.')[i]| && Split(base, '.')[i][j] == base[k];
        assert Number(Split(base, '.')[i]);
        assert Digit(v[k]);
      } else if k > n {
        assert PreChar(v[k]);
      }
    }
  }

  predicate KnownPrefix(p: string) { p == "<!-- " || p == "# " || p == "// " || p == "/* " }

  lemma PrefixKnown(suffix: string)
    requires Supported(suffix)
    ensures KnownPrefix(COMMENT_PREFIX_BY_SUFFIX[Lower(suffix)])
  {
  }

  lemma KnownPrefixFacts(p: string)
    requires KnownPrefix(p)
    ensures CommentPrefix(p) && NoBreaks(p) && p != ""
  {
  }

  lemma LineShape(p: string, id: string, v: string, c: string)
    ensures p + id + " v" + v + c == "" + p + id + (" " + "v" + (v + c))
  {
    assert " v" + v + c == " " + "v" + (v + c);
    assert p + id + " v" + v + c == p + id + (" v" + v + c);
  }

  lemma KnownCloser(closer: string)
    requires closer == "" || closer == " -->"
    ensures Closer(closer)
  {
    if closer != "" {
      assert closer == " " + "-->" + "";
      assert AllSpace(" ") && AllSpace("");
    }
  }

  lemma LastVisible(front: string, version: string, closer: string)
    requires version != "" && PreChar(version[|version| - 1]) && (closer == "" || closer == " -->")
    ensures RStrip(front + version + closer) == front + version + closer
  {
    var line := front + version + closer;
    assert line[|line| - 1] == if closer == "" then version[|version| - 1] else '>';
  }

  lemma LineUnbroken(prefix: string, id: string, version: string, closer: string)
    requires NoBreaks(prefix) && NoBreaks(id) && NoBreaks(version) && (closer == "" || closer == " -->")
    ensures NoBreaks(prefix + id + " v" + version + closer)
  {
    assert NoBreaks(prefix + id + " v");
    assert NoBreaks(closer);
  }

  lemma MadeLine(line: string, prefix: string, version: string, closer: string)
    requires line == prefix + KIT_ID + " v" + version + closer
    requires CommentPrefix(prefix) && IsVersion(version) && (closer == "" || closer == " -->")
    ensures MadeOf(line, "", prefix, " ", version, closer)
  {
    LineShape(prefix, KIT_ID, version, closer);
    KnownCloser(closer);
  }

  /** A formatted marker is a marker line for its version. */
  lemma FormattedMarker(version: string, suffix: string)
    requires Supported(suffix) && IsVersion(version)
    ensures MatchMarker(FormatMarker(version, suffix)) == Some(version) && NoBreaks(FormatMarker(version, suffix))
  {
    var prefix := COMMENT_PREFIX_BY_SUFFIX[Lower(suffix)];
    var closer := if Strip(prefix) == "<!--" then " -->" else "";
    var line := prefix + KIT_ID + " v" + version + closer;
    assert KnownPrefix(prefix) by { PrefixKnown(suffix); }
    assert FormatMarker(version, suffix) == line by {
      VersionEnds(version);
      LastVisible(prefix + KIT_ID + " v", version, closer);
    }
    assert NoBreaks(line) by {
      KnownPrefixFacts(prefix);
      VersionUnbroken(version);
      LineUnbroken(prefix, KIT_ID, version, closer);
    }
    assert MadeOf(line, "", prefix, " ", version, closer) by {
      KnownPrefixFacts(prefix);
      MadeLine(line, prefix, version, closer);
    }
    MadeMatches(line, "", prefix, " ", version, closer);
  }

  lemma MarkerWith(version: string, suffix: string, prefix: string, closer: string)
    requires Supported(suffix) && IsVersion(version) && COMMENT_PREFIX_BY_SUFFIX[Lower(suffix)] == prefix
    requires closer == if Strip(prefix) == "<!--" then " -->" else ""
    ensures FormatMarker(version, suffix) == MarkerText(prefix, version, closer)
  {
    VersionEnds(version);
    LastVisible(prefix + KIT_ID + " v", version, closer);
  }

  lemma PrefixOf(s: string)
    ensures s in {".py", ".sh", ".bash", ".toml", ".yaml", ".yml", ".txt", ".cfg", ".ini"} ==>
              s in COMMENT_PREFIX_BY_SUFFIX && COMMENT_PREFIX_BY_SUFFIX[s] == "# "
    ensures s in {".js", ".ts", ".tsx", ".jsx", ".go", ".rs", ".java"} ==>
              s in COMMENT_PREFIX_BY_SUFFIX && COMMENT_PREFIX_BY_SUFFIX[s] == "// "
    ensures s in {".md", ".markdown", ".html"} ==>
              s in COMMENT_PREFIX_BY_SUFFIX && COMMENT_PREFIX_BY_SUFFIX[s] == "<!-- "
    ensures s == ".css" ==> s in COMMENT_PREFIX_BY_SUFFIX && COMMENT_PREFIX_BY_SUFFIX[s] == "/* "
  {
  }

  function MarkerText(prefix: string, version: string, closer: string): string
  {
    prefix + "standard-ai-workflow-kit:" + " v" + version + closer
  }

  /** How the marker line looks in the file types that take one. */
  lemma MarkerLooks(version: string, suffix: string)
    requires IsVersion(version)
    ensures Lower(suffix) in {".py", ".sh", ".bash", ".toml", ".yaml", ".yml", ".txt", ".cfg", ".ini"} ==>
              Supported(suffix) && FormatMarker(version, suffix) == MarkerText("# ", version, "")
    ensures Lower(suffix) in {".js", ".ts", ".tsx", ".jsx", ".go", ".rs", ".java"} ==>
              Supported(suffix) && FormatMarker(version, suffix) == MarkerText("// ", version, "")
    ensures Lower(suffix) in {".md", ".markdown", ".html"} ==>
              Supported(suffix) && FormatMarker(version, suffix) == MarkerText("<!-- ", version, " -->")
    ensures Lower(suffix) == ".css" ==>
              Supported(suffix) && FormatMarker(version, suffix) == MarkerText("/* ", version, "")
  {
    PrefixOf(Lower(suffix));
    PrefixClosers();
    if Supported(suffix) {
      var prefix := COMMENT_PREFIX_BY_SUFFIX[Lower(suffix)];
      MarkerWith(version, suffix, prefix, if Strip(prefix) == "<!--" then " -->" else "");
    }
  }

  lemma PrefixClosers()
    ensures Strip("<!-- ") == "<!--" && Strip("# ") != "<!--" && Strip("// ") != "<!--" && Strip("/* ") != "<!--"
  {
    StripBeforeSpace("<!--", ' ');
    StripTrimmedIff("<!--");
    assert "<!--" + [' '] == "<!-- ";
    assert |Strip("# ")| <= 2 && |Strip("// ")| <= 3 && |Strip("/* ")| <= 3;
  }

  lemma StampedShape(marker: string, content: string) returns (more: string)
    ensures marker + "\n" + more ==
              if content == "" then marker + "\n" else if content[0] == '\n' then marker + content
              else marker + "\n\n" + content
  {
    if content == "" {
      more := "";
    } else if content[0] == '\n' {
      more := content[1..];
      assert "\n" + more == content;
    } else {
      more := "\n" + content;
    }
  }

  lemma MarkerOnFirstLine(marker: string, more: string, version: string)
    requires MatchMarker(marker) == Some(version) && NoBreaks(marker)
    ensures MarkerOf(marker + "\n" + more) == Some(version)
  {
    FirstPlainLine(marker, more);
    var lines := PlainLines(marker + "\n" + more);
    assert (if |lines| <= 5 then lines else lines[..5])[0] == marker;
  }

  /** Stamping a file without a marker makes it a file with exactly that version, if and only if the
      version is one the marker pattern knows. */
  lemma StampReadsBackIff(content: string, version: string, suffix: string)
    requires Supported(suffix) && MarkerOf(content).None?
    ensures MarkerOf(Stamp(content, version, suffix)) == Some(version) <==> IsVersion(version)
  {
    if IsVersion(version) {
      var marker := FormatMarker(version, suffix);
      var more := StampedShape(marker, content);
      FormattedMarker(version, suffix);
      MarkerOnFirstLine(marker, more, version);
    }
  }

  /** A stamped file is never stamped again, by any release, and keeps what it held. */
  lemma StampOnce(content: string, version: string, suffix: string, later: string, laterSuffix: string)
    requires Supported(suffix) && IsVersion(version)
    ensures var stamped := Stamp(content, version, suffix);
            && Stamp(stamped, later, laterSuffix) == stamped
            && MarkerOf(stamped) == (if MarkerOf(content).Some? then MarkerOf(content) else Some(version))
            && EndsWith(stamped, content)
  {
    if MarkerOf(content).None? { StampReadsBackIff(content, version, suffix); }
  }

  // ----- comparing what was found

  lemma NoOuterSpace(v: string)
    requires IsVersion(v)
    ensures Strip(v) == v
  {
    VersionEnds(v);
  }

  /** The version of a marker never makes the comparison raise. */
  lemma MarkerVersionParses(v: string)
    requires IsVersion(v)
    ensures ParseVersion(v).Some?
  {
    VersionEnds(v);
    NoOuterSpace(v);
    var parts := Split(v[..Find(v, '-')], '.');
    assert Number(parts[0]) && Number(parts[1]) && Number(parts[2]);
  }

  predicate AtMost(a: string, b: string) { CompareMarker(a, b).Some? && CompareMarker(a, b).value <= 0 }

  lemma OrderFlips(x: Option<Version>, y: Option<Version>)
    requires x.Some? && y.Some?
    ensures Compared(x, y).Some? && Compared(y, x) == Some(-Compared(x, y).value)
    ensures Compared(x, y).value <= 0 || Compared(y, x).value <= 0
  {
  }

  /** On marker versions the comparison is total, and it flips when its arguments do. */
  lemma CompareIsTotal(a: string, b: string)
    requires IsVersion(a) && IsVersion(b)
    ensures AtMost(a, b) || AtMost(b, a)
    ensures CompareMarker(a, b).Some? && CompareMarker(b, a) == Some(-CompareMarker(a, b).value)
  {
    MarkerVersionParses(a);
    MarkerVersionParses(b);
    var x, y := ParseVersion(a), ParseVersion(b);
    assert CompareMarker(a, b) == Compared(x, y) && CompareMarker(b, a) == Compared(y, x);
    OrderFlips(x, y);
  }

  lemma OrderIsTransitive(x: Option<Version>, y: Option<Version>, z: Option<Version>)
    requires x.Some? && y.Some? && z.Some? && Order(x.value, y.value) <= 0 && Order(y.value, z.value) <= 0
    ensures Order(x.value, z.value) <= 0
  {
  }

  lemma CompareIsTransitive(a: string, b: string, c: string)
    requires AtMost(a, b) && AtMost(b, c)
    ensures AtMost(a, c)
  {
    OrderIsTransitive(ParseVersion(a), ParseVersion(b), ParseVersion(c));
  }

  function Dotted(a: string, b: string, c: string, d: string): string { a + ['.'] + (b + ['.'] + (c + ['.'] + d)) }

  lemma DottedSplits(a: string, b: string, c: string, d: string)
    requires Number(a) && Number(b) && Number(c) && Number(d)
    ensures Split(Dotted(a, b, c, d), '.') == [a, b, c, d] && '-' !in Dotted(a, b, c, d)
  {
    NoDots(a);
    NoDots(b);
    NoDots(c);
    NoDots(d);
    FourSplit(Dotted(a, b, c, d), '.', a, b, c, d);
  }

  lemma FourSplit(v: string, dot: char, a: string, b: string, c: string, d: string)
    requires dot !in a && dot !in b && dot !in c && dot !in d
    requires v == a + [dot] + (b + [dot] + (c + [dot] + d))
    ensures Split(v, dot) == [a, b, c, d]
  {
    var rest := c + [dot] + d;
    assert Split(v, dot) == [a, b] + Split(rest, dot) by { SplitTwo(v, dot, a, b, rest); }
    assert Split(rest, dot) == [c] + Split(d, dot) by { SplitCons(rest, c, dot, d); }
    SplitOne(d, dot);
  }

  lemma DottedIsVersion(v: string, a: string, b: string, c: string, d: string)
    requires Number(a) && Number(b) && Number(c) && Number(d)
    requires Split(v, '.') == [a, b, c, d] && '-' !in v
    ensures IsVersion(v)
  {
    FindNone(v);
  }

  lemma DottedParses(v: string)
    requires IsVersion(v) && '-' !in v
    ensures ParseVersion(v) == FromParts(Split(v, '.'), "")
  {
    FindNone(v);
    NoOuterSpace(v);
    VersionEnds(v);
  }

  lemma DottedVersion(a: string, b: string, c: string, d: string)
    requires Number(a) && Number(b) && Number(c) && Number(d)
    ensures IsVersion(Dotted(a, b, c, d))
    ensures ParseVersion(Dotted(a, b, c, d)) == Some(Version(ValueOf(a), ValueOf(b), ValueOf(c), ""))
  {
    var v := Dotted(a, b, c, d);
    DottedSplits(a, b, c, d);
    DottedIsVersion(v, a, b, c, d);
    DottedParses(v);
  }

  lemma NoDots(a: string)
    requires Number(a)
    ensures '.' !in a && '-' !in a
  {
  }

  lemma FindNone(v: string)
    requires '-' !in v
    ensures Find(v, '-') == |v| && CutPre(v) == (v, "")
  {
    FindIs(v, '-', "");
    assert v + "" == v && v[..|v|] == v;
  }

  /** The first of the numbers that differs decides, by value, and between equal numbers the pre-release;
      a tie is three equal numbers and pre-releases of one rank. */
  lemma FirstDifferenceDecides(a: string, b: string)
    requires IsVersion(a) && IsVersion(b)
    ensures ParseVersion(a).Some? && ParseVersion(b).Some?
    ensures var x, y := ParseVersion(a).value, ParseVersion(b).value;
            && (CompareMarker(a, b) == Some(1) <==>
                  if x.major != y.major then x.major > y.major
                  else if x.minor != y.minor then x.minor > y.minor
                  else if x.patch != y.patch then x.patch > y.patch
                  else PreRank(x.pre) > PreRank(y.pre))
            && (CompareMarker(a, b) == Some(0) <==>
                  x.major == y.major && x.minor == y.minor && x.patch == y.patch && PreRank(x.pre) == PreRank(y.pre))
  {
    MarkerVersionParses(a);
    MarkerVersionParses(b);
  }

  /** Of two dotted versions the one with the greater number in the first place where they differ wins,
      numbers compared by value, and the fourth place not looked at. */
  lemma DottedOrder(a: string, b: string, c: string, d: string, e: string, f: string, g: string, h: string)
    requires Number(a) && Number(b) && Number(c) && Number(d) && Number(e) && Number(f) && Number(g) && Number(h)
    ensures var x, y := Dotted(a, b, c, d), Dotted(e, f, g, h);
            var (major, minor, patch) := (ValueOf(a) - ValueOf(e), ValueOf(b) - ValueOf(f), ValueOf(c) - ValueOf(g));
            && (CompareMarker(x, y) == Some(0) <==> major == 0 && minor == 0 && patch == 0)
            && (CompareMarker(x, y) == Some(1) <==>
                  major > 0 || (major == 0 && (minor > 0 || (minor == 0 && patch > 0))))
  {
    DottedVersion(a, b, c, d);
    DottedVersion(e, f, g, h);
    FirstDifferenceDecides(Dotted(a, b, c, d), Dotted(e, f, g, h));
  }

  // ----- pre-releases

  /** "a.b.c" and "a.b.c-pre". */
  function Release(a: string, b: string, c: string): string { a + ['.'] + (b + ['.'] + c) }

  function PreRelease(a: string, b: string, c: string, pre: string): string { Release(a, b, c) + ['-'] + pre }

  predicate PreText(pre: string) { pre != "" && forall i :: 0 <= i < |pre| ==> PreChar(pre[i]) }

  lemma ReleaseSplits(a: string, b: string, c: string)
    requires Number(a) && Number(b) && Number(c)
    ensures Split(Release(a, b, c), '.') == [a, b, c] && '-' !in Release(a, b, c)
  {
    NoDots(a);
    NoDots(b);
    NoDots(c);
    ThreeSplit(Release(a, b, c), '.', a, b, c);
  }

  lemma ThreeSplit(v: string, dot: char, a: string, b: string, c: string)
    requires dot !in a && dot !in b && dot !in c && v == a + [dot] + (b + [dot] + c)
    ensures Split(v, dot) == [a, b, c]
  {
    SplitTwo(v, dot, a, b, c);
    SplitOne(c, dot);
  }

  lemma DigitsTrim(v: string)
    requires v != "" && Digit(v[0]) && PreChar(v[|v| - 1])
    ensures Strip(v) == v && v[0] != 'v' && v[0] != 'V'
  {
    StripTrimmedIff(v);
  }

  /** A version text is read as its parts and its lowered pre-release. */
  lemma ReadVersion(v: string, base: string, pre: string, parts: seq<string>)
    requires base != "" && Digit(base[0]) && v != "" && PreChar(v[|v| - 1])
    requires (v == base && pre == "") || v == base + (['-'] + pre)
    requires '-' !in base && Split(base, '.') == parts
    ensures ParseVersion(v) == FromParts(parts, Lower(pre))
  {
    assert v[0] == base[0];
    DigitsTrim(v);
    if v == base && pre == "" {
      FindNone(v);
    } else {
      CutAtDash(base, pre);
    }
  }

  lemma CutAtDash(base: string, pre: string)
    requires '-' !in base
    ensures CutPre(base + (['-'] + pre)) == (base, Lower(pre))
  {
    var v := base + (['-'] + pre);
    FindIs(base, '-', ['-'] + pre);
    assert v[..|base|] == base && v[|base| + 1..] == pre;
  }

  lemma ReleaseParses(a: string, b: string, c: string)
    requires Number(a) && Number(b) && Number(c)
    ensures ParseVersion(Release(a, b, c)) == Some(Version(ValueOf(a), ValueOf(b), ValueOf(c), ""))
  {
    var v := Release(a, b, c);
    ReleaseSplits(a, b, c);
    assert Digit(v[0]) && PreChar(v[|v| - 1]) by { assert v[0] == a[0] && v[|v| - 1] == c[|c| - 1]; }
    ReadVersion(v, v, "", [a, b, c]);
  }

  lemma PreReleaseParses(a: string, b: string, c: string, pre: string)
    requires Number(a) && Number(b) && Number(c) && PreText(pre)
    ensures ParseVersion(PreRelease(a, b, c, pre)) == Some(Version(ValueOf(a), ValueOf(b), ValueOf(c), Lower(pre)))
  {
    ReleaseSplits(a, b, c);
    assert Release(a, b, c)[0] == a[0];
    ReadPreRelease(Release(a, b, c), pre, [a, b, c]);
  }

  lemma ReadPreRelease(base: string, pre: string, parts: seq<string>)
    requires base != "" && Digit(base[0]) && '-' !in base && Split(base, '.') == parts && PreText(pre)
    ensures ParseVersion(base + ['-'] + pre) == FromParts(parts, Lower(pre))
  {
    var v := base + ['-'] + pre;
    assert v[|v| - 1] == pre[|pre| - 1] && v == base + (['-'] + pre);
    ReadVersion(v, base, pre, parts);
  }

  lemma SameNumbers(x: string, y: string, v: Version, w: Version)
    requires ParseVersion(x) == Some(v) && ParseVersion(y) == Some(w)
    requires v.major == w.major && v.minor == w.minor && v.patch == w.patch
    ensures CompareMarker(x, y) == Some(Sign(PreRank(v.pre), PreRank(w.pre)))
  {
  }

  function Sign(m: nat, n: nat): int { if m < n then -1 else if m > n then 1 else 0 }

  lemma PreReleasesCompare(a: string, b: string, c: string, x: string, y: string)
    requires Number(a) && Number(b) && Number(c) && PreText(x) && PreText(y)
    ensures CompareMarker(PreRelease(a, b, c, x), PreRelease(a, b, c, y))
         == Some(Sign(PreRank(Lower(x)), PreRank(Lower(y))))
  {
    PreReleaseParses(a, b, c, x);
    PreReleaseParses(a, b, c, y);
    SameNumbers(PreRelease(a, b, c, x), PreRelease(a, b, c, y),
                Version(ValueOf(a), ValueOf(b), ValueOf(c), Lower(x)),
                Version(ValueOf(a), ValueOf(b), ValueOf(c), Lower(y)));
  }

  /** The words of the pre-release order. */
  const KNOWN := {"alpha", "a", "beta", "b", "rc", "pre", "preview", "final", "stable"}

  lemma RankOf(pre: string)
    ensures pre in {"alpha", "a"} ==> PreRank(pre) == 1
    ensures pre in {"beta", "b"} ==> PreRank(pre) == 2
    ensures pre in {"rc", "pre", "preview"} ==> PreRank(pre) == 3
    ensures pre in {"final", "stable"} ==> PreRank(pre) == 99
    ensures pre !in KNOWN && pre != "" ==> PreRank(pre) == 50
  {
  }

  predicate Older(x: string, y: string) { CompareMarker(x, y) == Some(-1) }

  lemma OlderStage(a: string, b: string, c: string, x: string, y: string)
    requires Number(a) && Number(b) && Number(c) && PreText(x) && PreText(y)
    requires var (p, q) := (Lower(x), Lower(y));
             || (p in {"alpha", "a"} && q in {"beta", "b"})
             || (p in {"beta", "b"} && q in {"rc", "pre", "preview"})
             || (p in {"rc", "pre", "preview"} && q !in KNOWN)
             || (p !in KNOWN && q in {"final", "stable"})
    ensures Older(PreRelease(a, b, c, x), PreRelease(a, b, c, y))
  {
    PreReleasesCompare(a, b, c, x, y);
    RankOf(Lower(x));
    RankOf(Lower(y));
  }

  lemma ReleaseRank(pre: string)
    requires pre != ""
    ensures PreRank(pre) < PreRank("") == 100
  {
  }

  lemma ReleaseComesLast(a: string, b: string, c: string, pre: string)
    requires Number(a) && Number(b) && Number(c) && PreText(pre)
    ensures Older(PreRelease(a, b, c, pre), Release(a, b, c))
  {
    PreReleaseParses(a, b, c, pre);
    ReleaseParses(a, b, c);
    EqualNumbers(PreRelease(a, b, c, pre), Release(a, b, c), ValueOf(a), ValueOf(b), ValueOf(c), Lower(pre), "");
  }

  lemma EqualNumbers(x: string, y: string, major: nat, minor: nat, patch: nat, p: string, q: string)
    requires ParseVersion(x) == Some(Version(major, minor, patch, p)) && p != ""
    requires ParseVersion(y) == Some(Version(major, minor, patch, q)) && q == ""
    ensures Older(x, y)
  {
    SameNumbers(x, y, Version(major, minor, patch, p), Version(major, minor, patch, q));
    ReleaseRank(p);
  }

  /** Of one release the pre-releases come in this order, in any case of letters, and before the release
      itself; what is not one of the known words comes after the candidates and before "final". */
  lemma StagesInOrder(a: string, b: string, c: string, alpha: string, beta: string, rc: string, other: string,
                      final: string)
    requires Number(a) && Number(b) && Number(c)
    requires PreText(alpha) && Lower(alpha) in {"alpha", "a"}
    requires PreText(beta) && Lower(beta) in {"beta", "b"}
    requires PreText(rc) && Lower(rc) in {"rc", "pre", "preview"}
    requires PreText(other) && Lower(other) !in KNOWN
    requires PreText(final) && Lower(final) in {"final", "stable"}
    ensures Older(PreRelease(a, b, c, alpha), PreRelease(a, b, c, beta))
    ensures Older(PreRelease(a, b, c, beta), PreRelease(a, b, c, rc))
    ensures Older(PreRelease(a, b, c, rc), PreRelease(a, b, c, other))
    ensures Older(PreRelease(a, b, c, other), PreRelease(a, b, c, final))
    ensures Older(PreRelease(a, b, c, final), Release(a, b, c))
  {
    OlderStage(a, b, c, alpha, beta);
    OlderStage(a, b, c, beta, rc);
    OlderStage(a, b, c, rc, other);
    OlderStage(a, b, c, other, final);
    ReleaseComesLast(a, b, c, final);
  }

  /** Two words of one stage tie, and so do any two unknown ones. */
  lemma StagesTie(a: string, b: string, c: string, x: string, y: string)
    requires Number(a) && Number(b) && Number(c) && PreText(x) && PreText(y)
    requires var (p, q) := (Lower(x), Lower(y));
             || (p in {"alpha", "a"} && q in {"alpha", "a"}) || (p in {"beta", "b"} && q in {"beta", "b"})
             || (p in {"rc", "pre", "preview"} && q in {"rc", "pre", "preview"})
             || (p in {"final", "stable"} && q in {"final", "stable"}) || (p !in KNOWN && q !in KNOWN)
    ensures CompareMarker(PreRelease(a, b, c, x), PreRelease(a, b, c, y)) == Some(0)
  {
    PreReleasesCompare(a, b, c, x, y);
    RankOf(Lower(x));
    RankOf(Lower(y));
  }

  lemma CompareRange(a: string, b: string)
    requires IsVersion(a) && IsVersion(b)
    ensures CompareMarker(a, b).Some? && CompareMarker(a, b).value in {-1, 0, 1}
  {
    MarkerVersionParses(a);
    MarkerVersionParses(b);
  }

  /** So a hotfix release never ranks above the release it fixes, nor below. */
  lemma HotfixesTie(a: string, b: string, c: string, d: string, e: string)
    requires Number(a) && Number(b) && Number(c) && Number(d) && Number(e)
    ensures IsVersion(Dotted(a, b, c, d)) && IsVersion(Dotted(a, b, c, e))
    ensures CompareMarker(Dotted(a, b, c, d), Dotted(a, b, c, e)) == Some(0)
  {
    DottedVersion(a, b, c, d);
    DottedVersion(a, b, c, e);
  }
}
