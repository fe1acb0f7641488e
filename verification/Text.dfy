/** The string operations of Python that the modelled code relies on. */
module Text {

  /** `str.isspace` for one character, as `strip` uses it. */
  predicate IsSpace(c: char)
  {
    || '\U{9}' <= c <= '\U{D}' || '\U{1C}' <= c <= '\U{20}' || c == '\U{85}' || c == '\U{A0}'
    || c == '\U{1680}' || '\U{2000}' <= c <= '\U{200A}' || c == '\U{2028}' || c == '\U{2029}'
    || c == '\U{202F}' || c == '\U{205F}' || c == '\U{3000}'
  }

  function LStrip(s: string): (r: string)
    ensures |r| <= |s|
    ensures r == [] || !IsSpace(r[0])
  {
    if s != [] && IsSpace(s[0]) then LStrip(s[1..]) else s
  }

  function RStrip(s: string): (r: string)
    ensures |r| <= |s|
    ensures r == s[..|r|]
    ensures r == [] || !IsSpace(r[|r| - 1])
  {
    if s != [] && IsSpace(s[|s| - 1]) then RStrip(s[..|s| - 1]) else s
  }

  /** `s.strip()` */
  function Strip(s: string): (r: string)
    ensures |r| <= |s|
    ensures r == [] || (!IsSpace(r[0]) && !IsSpace(r[|r| - 1]))
  {
    RStrip(LStrip(s))
  }

  predicate Trimmed(s: string)
  {
    s == [] || (!IsSpace(s[0]) && !IsSpace(s[|s| - 1]))
  }

  lemma StripTrimmedIff(s: string)
    ensures Strip(s) == s <==> Trimmed(s)
  {
  }

  lemma {:induction false} LStripSpaces(pre: string, s: string)
    requires AllSpace(pre)
    ensures LStrip(pre + s) == LStrip(s)
  {
    if pre == "" {
      assert pre + s == s;
    } else {
      assert (pre + s)[1..] == pre[1..] + s;
      LStripSpaces(pre[1..], s);
    }
  }

  lemma {:induction false} StripBeforeSpace(s: string, c: char)
    requires IsSpace(c)
    ensures Strip(s + [c]) == Strip(s)
  {
    if s != "" && IsSpace(s[0]) {
      assert (s + [c])[1..] == s[1..] + [c];
      StripBeforeSpace(s[1..], c);
    } else if s == "" {
      assert s + [c] == [c];
      LStripSpaces([c], "");
      assert [c] + "" == [c];
    } else {
      assert RStrip(s + [c]) == RStrip(s) by { assert (s + [c])[..|s|] == s; }
    }
  }

  lemma {:induction false} StripKeeps(line: string, i: nat)
    requires i < |line| && !IsSpace(line[i])
    ensures i < |RStrip(line)|
  {
    if IsSpace(line[|line| - 1]) { StripKeeps(line[..|line| - 1], i); }
  }

  predicate AllSpace(s: string) { forall i :: 0 <= i < |s| ==> IsSpace(s[i]) }

  /** What `lstrip` keeps is the end of the string, and what it drops is white space. */
  lemma {:induction false} LStripCuts(s: string)
    ensures var n := |s| - |LStrip(s)|; LStrip(s) == s[n..] && AllSpace(s[..n])
  {
    if s != "" && IsSpace(s[0]) {
      LStripCuts(s[1..]);
      var n := |s| - |LStrip(s)|;
      assert s[1..][n - 1..] == s[n..];
      assert s[..n] == [s[0]] + s[1..][..n - 1];
    }
  }

  lemma {:induction false} RStripCuts(s: string)
    ensures AllSpace(s[|RStrip(s)|..])
  {
    if s != "" && IsSpace(s[|s| - 1]) {
      var n := |RStrip(s)|;
      RStripCuts(s[..|s| - 1]);
      assert s[n..] == s[..|s| - 1][n..] + [s[|s| - 1]];
    }
  }

  lemma {:induction false} RStripSpaces(s: string, post: string)
    requires AllSpace(post) && s != "" && !IsSpace(s[|s| - 1])
    ensures RStrip(s + post) == s
  {
    if post == "" {
      assert s + post == s;
    } else {
      var n := |post| - 1;
      assert (s + post)[..|s| + n] == s + post[..n];
      RStripSpaces(s, post[..n]);
    }
  }

  predicate StartsWith(s: string, prefix: string) { |prefix| <= |s| && s[..|prefix|] == prefix }

  predicate EndsWith(s: string, suffix: string) { |suffix| <= |s| && s[|s| - |suffix|..] == suffix }

  function Join(parts: seq<string>, sep: string): (r: string)
  {
    if parts == [] then "" else if |parts| == 1 then parts[0] else parts[0] + sep + Join(parts[1..], sep)
  }

  function Concat(parts: seq<string>): (r: string)
  {
    if parts == [] then "" else parts[0] + Concat(parts[1..])
  }

  /** Index of the first `c` in `s`, or `|s|`. */
  function Find(s: string, c: char): (i: nat)
    ensures i <= |s|
    ensures i < |s| ==> s[i] == c
    ensures c !in s[..i]
  {
    if s == "" || s[0] == c then 0 else 1 + Find(s[1..], c)
  }

  lemma {:induction false} FindIs(s: string, c: char, t: string)
    requires c !in s && (t == "" || t[0] == c)
    ensures Find(s + t, c) == |s|
  {
    if s == "" {
      assert s + t == t;
    } else {
      assert (s + t)[1..] == s[1..] + t;
      FindIs(s[1..], c, t);
    }
  }

  /** `s.split(c)` */
  function Split(s: string, c: char): (parts: seq<string>)
    ensures parts != []
    ensures forall part :: part in parts ==> c !in part
    decreases |s|
  {
    var i := Find(s, c);
    if i == |s| then [s] else [s[..i]] + Split(s[i + 1..], c)
  }

  lemma SplitOne(s: string, c: char)
    requires c !in s
    ensures Split(s, c) == [s]
  {
    FindIs(s, c, "");
    assert s + "" == s;
  }

  lemma SplitCons(s: string, x: string, c: char, rest: string)
    requires c !in x && s == x + [c] + rest
    ensures Split(s, c) == [x] + Split(rest, c)
  {
    FindIs(x, c, [c] + rest);
    assert s == x + ([c] + rest);
    assert s[..|x|] == x && s[|x| + 1..] == rest;
  }

  lemma {:induction false} SplitAppend(s: string, a: string, c: char, b: string)
    requires s == a + [c] + b
    ensures Split(s, c) == Split(a, c) + Split(b, c)
    decreases |a|
  {
    var i := Find(a, c);
    if i == |a| {
      SplitCons(s, a, c, b);
      SplitOne(a, c);
    } else {
      var x, rest := a[..i], a[i + 1..];
      var tail := rest + [c] + b;
      assert a == x + [c] + rest && s == x + [c] + tail;
      assert Split(s, c) == [x] + Split(tail, c) by { SplitCons(s, x, c, tail); }
      assert Split(a, c) == [x] + Split(rest, c) by { SplitCons(a, x, c, rest); }
      assert Split(tail, c) == Split(rest, c) + Split(b, c) by { SplitAppend(tail, rest, c, b); }
      Reassociate([x], Split(rest, c), Split(b, c));
    }
  }

  lemma SplitTwo(s: string, c: char, a: string, b: string, rest: string)
    requires c !in a && c !in b && s == a + [c] + (b + [c] + rest)
    ensures Split(s, c) == [a, b] + Split(rest, c)
  {
    var s1 := b + [c] + rest;
    assert Split(s1, c) == [b] + Split(rest, c) by { SplitCons(s1, b, c, rest); }
    assert Split(s, c) == [a] + Split(s1, c) by { SplitCons(s, a, c, s1); }
    Reassociate([a], [b], Split(rest, c));
  }

  lemma Reassociate<T>(a: seq<T>, b: seq<T>, c: seq<T>)
    ensures a + b + c == a + (b + c)
  {
  }

  /** `s.lower()` on ASCII text. */
  function Lower(s: string): (r: string)
    ensures |r| == |s|
  {
    seq(|s|, i requires 0 <= i < |s| => if 'A' <= s[i] <= 'Z' then s[i] - 'A' + 'a' else s[i])
  }

  // ----- substrings

  predicate Occurs(t: string, m: string, i: nat) { i + |m| <= |t| && t[i..i + |m|] == m }

  /** `t.index(m)`, or `|t|` where Python raises. */
  function IndexOf(t: string, m: string): (i: nat)
    requires m != ""
    ensures i <= |t|
    ensures i < |t| ==> Occurs(t, m, i)
    ensures forall j :: 0 <= j < i ==> !Occurs(t, m, j)
  {
    if t == "" || StartsWith(t, m) then 0
    else
      var i := IndexOf(t[1..], m);
      assert forall j :: 0 < j <= i ==> Occurs(t, m, j) == Occurs(t[1..], m, j - 1) by {
        forall j | 0 < j <= i ensures Occurs(t, m, j) == Occurs(t[1..], m, j - 1) { OccursShift(t, m, j); }
      }
      assert i + 1 < |t| ==> Occurs(t, m, i + 1) by { OccursShift(t, m, i + 1); }
      i + 1
  }

  lemma OccursShift(t: string, m: string, j: nat)
    requires 0 < j && t != ""
    ensures Occurs(t, m, j) == Occurs(t[1..], m, j - 1)
  {
    if j + |m| <= |t| { assert t[j..j + |m|] == t[1..][j - 1..j - 1 + |m|]; }
  }

  /** `m in t` */
  predicate Has(t: string, m: string)
    requires m != ""
  {
    IndexOf(t, m) < |t|
  }

  lemma IndexIs(t: string, m: string, i: nat)
    requires m != "" && Occurs(t, m, i) && forall j :: 0 <= j < i ==> !Occurs(t, m, j)
    ensures IndexOf(t, m) == i && Has(t, m)
  {
    var f := IndexOf(t, m);
    assert f <= i;
  }

  ghost predicate Free(t: string, m: string) { forall j: nat :: !Occurs(t, m, j) }

  lemma FreeIff(t: string, m: string)
    requires m != ""
    ensures Free(t, m) <==> !Has(t, m)
  {
    assert forall j: nat :: j >= |t| ==> !Occurs(t, m, j);
  }

  lemma Mismatch(t: string, m: string, j: nat, p: nat)
    requires p < |m| && j + p < |t| && t[j + p] != m[p]
    ensures !Occurs(t, m, j)
  {
    assert j + |m| <= |t| ==> t[j..j + |m|][p] == t[j + p];
  }

  // ----- lines

  /** The characters at which `str.splitlines` ends a line. */
  predicate IsBreak(c: char)
  {
    || '\U{A}' <= c <= '\U{D}' || '\U{1C}' <= c <= '\U{1E}' || c == '\U{85}' || c == '\U{2028}' || c == '\U{2029}'
  }

  /** Length of the first line of `s`, its terminator included; "\r\n" is one terminator. */
  function FirstLine(s: string): (n: nat)
    requires s != []
    ensures 1 <= n <= |s|
  {
    if s[0] == '\r' && |s| > 1 && s[1] == '\n' then 2
    else if IsBreak(s[0]) || |s| == 1 then 1
    else 1 + FirstLine(s[1..])
  }

  /** `s.splitlines(keepends=True)` */
  function SplitLines(s: string): (lines: seq<string>)
    ensures forall l :: l in lines ==> l != []
    decreases |s|
  {
    if s == [] then []
    else
      var n := FirstLine(s);
      [s[..n]] + SplitLines(s[n..])
  }

  /** No text is lost by splitting. */
  lemma {:induction false} SplitLinesConcat(s: string)
    ensures Concat(SplitLines(s)) == s
    decreases |s|
  {
    if s != [] {
      var n := FirstLine(s);
      SplitLinesConcat(s[n..]);
      assert SplitLines(s)[1..] == SplitLines(s[n..]);
    }
  }

  function TerminatorLength(l: string): nat
  {
    if |l| >= 2 && l[|l| - 2] == '\r' && l[|l| - 1] == '\n' then 2 else 1
  }

  /** One line with its terminator: no break character inside, one (or "\r\n") at the end. */
  predicate IsLine(l: string)
  {
    && l != [] && IsBreak(l[|l| - 1])
    && forall i :: 0 <= i < |l| - TerminatorLength(l) ==> !IsBreak(l[i])
  }

  /** Terminated lines that stay apart when written one after another: a line ending in a bare "\r"
      must not be followed by the line "\n". */
  ghost predicate Separate(lines: seq<string>)
  {
    && AllLines(lines)
    && (forall i :: 0 <= i < |lines| - 1 ==> !(lines[i][|lines[i]| - 1] == '\r' && lines[i + 1] == "\n"))
  }

  ghost predicate AllLines(lines: seq<string>) { forall i :: 0 <= i < |lines| ==> IsLine(lines[i]) }

  predicate NoBreaks(l: string) { forall i :: 0 <= i < |l| ==> !IsBreak(l[i]) }

  /** The lines of a text: all but the last are terminated and stay apart, and the last may lack its
      terminator. */
  ghost predicate LinesOfText(lines: seq<string>)
  {
    && (forall i :: 0 <= i < |lines| - 1 ==>
          IsLine(lines[i]) && !(lines[i][|lines[i]| - 1] == '\r' && lines[i + 1] == "\n"))
    && (lines != [] ==>
          var last := lines[|lines| - 1]; IsLine(last) || (last != "" && NoBreaks(last)))
  }

  lemma {:induction false} FirstLineStops(s: string)
    requires s != [] && FirstLine(s) < |s|
    ensures var n := FirstLine(s); IsLine(s[..n]) && !(s[n - 1] == '\r' && s[n] == '\n')
  {
    if !IsBreak(s[0]) {
      FirstLineStops(s[1..]);
      var l, t := s[..FirstLine(s)], s[1..][..FirstLine(s[1..])];
      assert l == [s[0]] + t;
      assert TerminatorLength(l) == TerminatorLength(t);
      assert forall i :: 0 < i < |l| ==> l[i] == t[i - 1];
    }
  }

  lemma SeparateConcat(a: seq<string>, b: seq<string>)
    requires Separate(a) && Separate(b)
    requires a == [] || b == [] || a[|a| - 1][|a[|a| - 1]| - 1] != '\r' || b[0] != "\n"
    ensures Separate(a + b)
  {
    var s := a + b;
    forall i | 0 <= i < |s| - 1 ensures !(s[i][|s[i]| - 1] == '\r' && s[i + 1] == "\n") {
      if i < |a| - 1 { assert s[i] == a[i] && s[i + 1] == a[i + 1]; }
    }
  }

  lemma {:induction false} FirstLineOf(l: string, rest: string)
    requires IsLine(l)
    requires l[|l| - 1] == '\r' ==> rest == [] || rest[0] != '\n'
    ensures FirstLine(l + rest) == |l|
    decreases |l|
  {
    if |l| > TerminatorLength(l) {
      assert (l + rest)[1..] == l[1..] + rest;
      assert TerminatorLength(l[1..]) == TerminatorLength(l);
      FirstLineOf(l[1..], rest);
    }
  }

  lemma LoneNewline(l: string)
    requires IsLine(l) && l[0] == '\n'
    ensures l == "\n"
  {
    assert IsBreak(l[0]);
  }

  lemma {:induction false} FirstLineWhole(l: string)
    requires l != [] && NoBreaks(l)
    ensures FirstLine(l) == |l|
  {
    assert !IsBreak(l[0]);
    if |l| > 1 {
      assert forall i :: 0 <= i < |l[1..]| ==> l[1..][i] == l[i + 1];
      FirstLineWhole(l[1..]);
    }
  }

  lemma {:induction false} FirstLineShape(s: string)
    requires s != []
    ensures var l := s[..FirstLine(s)]; IsLine(l) || (FirstLine(s) == |s| && NoBreaks(l))
  {
    if FirstLine(s) < |s| {
      FirstLineStops(s);
    } else if !IsBreak(s[0]) && |s| > 1 {
      FirstLineShape(s[1..]);
      var t := s[1..];
      assert s[..|s|] == s && t[..|t|] == t && s == [s[0]] + t;
      assert TerminatorLength(s) == TerminatorLength(t) || |t| == 1;
      assert forall i :: 0 < i < |s| ==> s[i] == t[i - 1];
    }
  }

  lemma {:induction false} SplitIsLines(s: string)
    ensures LinesOfText(SplitLines(s))
    decreases |s|
  {
    if s != [] {
      var n := FirstLine(s);
      FirstLineShape(s);
      SplitIsLines(s[n..]);
      var rest := SplitLines(s[n..]);
      assert SplitLines(s) == [s[..n]] + rest;
      if n < |s| {
        FirstLineStops(s);
        assert rest[0][0] == s[n];
      }
    }
  }

  lemma FirstOfLines(lines: seq<string>)
    requires |lines| > 1 && LinesOfText(lines)
    ensures FirstLine(lines[0] + Concat(lines[1..])) == |lines[0]|
  {
    var rest := Concat(lines[1..]);
    assert IsLine(lines[0]) && !(lines[0][|lines[0]| - 1] == '\r' && lines[0 + 1] == "\n");
    assert lines[1..][0] == lines[1];
    assert IsLine(lines[1]) || NoBreaks(lines[1]);
    assert lines[1] != "" && rest[0] == lines[1][0];
    if rest[0] == '\n' {
      assert IsBreak(lines[1][0]);
      LoneNewline(lines[1]);
    }
    FirstLineOf(lines[0], rest);
  }

  /** Splitting undoes writing lines one after another. */
  lemma {:induction false} SplitConcat(lines: seq<string>)
    requires LinesOfText(lines)
    ensures SplitLines(Concat(lines)) == lines
  {
    if |lines| == 1 {
      assert Concat(lines) == lines[0] + [] == lines[0];
      if IsLine(lines[0]) { FirstLineOf(lines[0], []); } else { FirstLineWhole(lines[0]); }
      assert lines[0][..|lines[0]|] == lines[0] && lines[0][|lines[0]|..] == [];
    } else if |lines| > 1 {
      var rest := Concat(lines[1..]);
      FirstOfLines(lines);
      assert Concat(lines)[|lines[0]|..] == rest && Concat(lines)[..|lines[0]|] == lines[0];
      assert LinesOfText(lines[1..]) by {
        assert forall i :: 0 <= i < |lines[1..]| ==> lines[1..][i] == lines[i + 1];
      }
      SplitConcat(lines[1..]);
    }
  }

  /** The lines of a text without carriage returns. */
  ghost predicate TextLines(lines: seq<string>)
  {
    LinesOfText(lines) && forall i :: 0 <= i < |lines| ==> '\r' !in lines[i]
  }

  lemma {:induction false} NoReturns(lines: seq<string>)
    ensures '\r' !in Concat(lines) <==> forall i :: 0 <= i < |lines| ==> '\r' !in lines[i]
  {
    if lines != [] {
      NoReturns(lines[1..]);
      assert forall i :: 0 < i < |lines| ==> lines[i] == lines[1..][i - 1];
      assert forall i :: 0 <= i < |lines[1..]| ==> lines[1..][i] == lines[i + 1];
    }
  }

  lemma SplitTextLines(s: string)
    requires '\r' !in s
    ensures TextLines(SplitLines(s))
  {
    SplitIsLines(s);
    SplitLinesConcat(s);
    NoReturns(SplitLines(s));
  }

  lemma SplitConcatText(lines: seq<string>)
    requires TextLines(lines)
    ensures SplitLines(Concat(lines)) == lines && '\r' !in Concat(lines)
  {
    SplitConcat(lines);
    NoReturns(lines);
  }

  /** One line of `splitlines()`: its terminator dropped. */
  function Chop(l: string): string
  {
    if l == "" || !IsBreak(l[|l| - 1]) then l
    else l[..|l| - TerminatorLength(l)]
  }

  /** `s.splitlines()` */
  function PlainLines(s: string): (lines: seq<string>)
    decreases |s|
  {
    if s == "" then [] else [Chop(s[..FirstLine(s)])] + PlainLines(s[FirstLine(s)..])
  }

  lemma {:induction false} PlainLinesOfJoin(lines: seq<string>)
    requires forall i :: 0 <= i < |lines| ==> lines[i] != "" && NoBreaks(lines[i])
    ensures PlainLines(Join(lines, "\n")) == lines
  {
    if |lines| == 1 {
      var l := lines[0];
      FirstLineWhole(l);
      assert l[..|l|] == l && l[|l|..] == "";
    } else if |lines| > 1 {
      var l, rest := lines[0], Join(lines[1..], "\n");
      var s := Join(lines, "\n");
      assert IsLine(l + "\n") && Chop(l + "\n") == l by { TerminatedLine(l); }
      FirstLineOf(l + "\n", rest);
      assert s == l + "\n" + rest;
      assert s[..|l| + 1] == l + "\n" && s[|l| + 1..] == rest;
      assert forall i :: 0 <= i < |lines[1..]| ==> lines[1..][i] == lines[i + 1];
      PlainLinesOfJoin(lines[1..]);
    }
  }

  lemma TerminatedLine(l: string)
    requires NoBreaks(l)
    ensures IsLine(l + "\n") && Chop(l + "\n") == l
  {
    assert TerminatorLength(l + "\n") == 1 by { if l != "" { assert !IsBreak(l[|l| - 1]); } }
  }

  lemma FirstPlainLine(l: string, more: string)
    requires NoBreaks(l)
    ensures var lines := PlainLines(l + "\n" + more); lines != [] && lines[0] == l
  {
    var s := l + "\n" + more;
    TerminatedLine(l);
    FirstLineOf(l + "\n", more);
    assert s[..|l| + 1] == l + "\n";
  }

  // ----- text mode reads

  /** Reading a file in text mode turns "\r\n" and a bare "\r" into "\n"; writing leaves text as it is. */
  function UniversalNewlines(s: string): (r: string)
  {
    if s == [] then ""
    else if s[0] == '\r' then "\n" + UniversalNewlines(if |s| > 1 && s[1] == '\n' then s[2..] else s[1..])
    else [s[0]] + UniversalNewlines(s[1..])
  }

  lemma {:induction false} UniversalNewlinesIff(s: string)
    ensures '\r' !in UniversalNewlines(s)
    ensures UniversalNewlines(s) == s <==> '\r' !in s
  {
    if s != [] {
      if s[0] == '\r' {
        UniversalNewlinesIff(if |s| > 1 && s[1] == '\n' then s[2..] else s[1..]);
      } else {
        UniversalNewlinesIff(s[1..]);
        assert s == [s[0]] + s[1..];
      }
    }
  }

  predicate EndsBare(s: string) { s != "" && s[|s| - 1] == '\r' }

  lemma NewlinesAfterReturn(u: string)
    requires '\r' !in u
    ensures UniversalNewlines("\r" + ("\n" + u)) == "\n" + u
  {
    assert ("\r" + ("\n" + u))[2..] == u;
    UniversalNewlinesIff(u);
  }

  /** What one step of the conversion consumes, and what it writes. */
  function NewlineStep(s: string): (r: (nat, string))
    requires s != ""
    ensures 1 <= r.0 <= |s|
  {
    if s[0] != '\r' then (1, [s[0]]) else if |s| > 1 && s[1] == '\n' then (2, "\n") else (1, "\n")
  }

  lemma StepInside(s: string, t: string)
    requires s != "" && s != "\r"
    ensures var (n, head) := NewlineStep(s); UniversalNewlines(s + t) == head + UniversalNewlines(s[n..] + t)
  {
    var (n, head) := NewlineStep(s);
    assert (s + t)[n..] == s[n..] + t;
  }

  /** Appending text that begins with a newline: after a bare "\r" that newline completes a terminator. */
  lemma {:induction false} UniversalNewlinesAppend(s: string, u: string)
    requires '\r' !in u
    ensures UniversalNewlines(s + ("\n" + u)) == UniversalNewlines(s) + (if EndsBare(s) then u else "\n" + u)
    decreases |s|
  {
    var t := "\n" + u;
    if s == "" {
      assert s + t == t;
      UniversalNewlinesIff(t);
    } else if s == "\r" {
      NewlinesAfterReturn(u);
    } else {
      var (n, head) := NewlineStep(s);
      StepInside(s, t);
      StepInside(s, "");
      assert s + "" == s && s[n..] + "" == s[n..];
      UniversalNewlinesAppend(s[n..], u);
    }
  }
}
