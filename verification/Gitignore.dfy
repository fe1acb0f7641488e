/** The managed block in .gitignore: a string-level fixpoint, and the contents for which there is none. */
module Gitignore {
  import opened Options
  import opened Text

  const START := "# === WORKFLOW KIT START ==="
  const END := "# === WORKFLOW KIT END ==="

  const LEGACY := "/ai-workflow/scripts/"

  const TRACKED := ["# Workflow layer (selective tracking)", "/ANTIGRAVITY.md", "/AGENTS.md", "/GEMINI.md"]

  const COPIES := [
    "# Exclude duplicated engine/tool copies",
    "/ai-workflow/scripts/",
    "/ai-workflow/skills/",
    "/ai-workflow/workflow_kit/",
    "/ai-workflow/mcp_servers/",
    "/ai-workflow/schemas/",
    "/ai-workflow/templates/",
    "/ai-workflow/examples/",
    "/ai-workflow/global-snippets/",
    "/ai-workflow/harnesses/",
    "/ai-workflow/tests/"
  ]

  const DATA := [
    "# Keep the data (memory) and core guides",
    "!/ai-workflow/README.md",
    "!/ai-workflow/WORKFLOW_INDEX.md",
    "!/ai-workflow/core/",
    "!/ai-workflow/memory/active/"
  ]

  /** `GITIGNORE_PATTERNS` */
  const PATTERNS: seq<string> := TRACKED + [""] + COPIES + [""] + DATA

  /** `_build_block()` */
  function Block(): string { BlockOf(PATTERNS) }

  function BlockOf(patterns: seq<string>): string { Join([START] + patterns + [END], "\n") }

  // ----- one run

  datatype Change = Unchanged | Create | Update | Migrate | Append

  function Read(content: string): string { UniversalNewlines(content) }

  /** Replaces what stands between the first START and the first END, both included. */
  function Replaced(t: string): string
    requires Has(t, START) && Has(t, END)
  {
    t[..IndexOf(t, START)] + Block() + t[IndexOf(t, END) + |END|..]
  }

  /** `content[start_idx:end_idx]`, empty where the end comes first. */
  function Span(t: string): string
    requires Has(t, START) && Has(t, END)
  {
    var from, to := IndexOf(t, START), IndexOf(t, END) + |END|;
    if from <= to then t[from..to] else ""
  }

  function Decide(content: Option<string>): Change
  {
    if content.None? then Create
    else
      var t := Read(content.value);
      if Has(t, START) && Has(t, END) then (if Span(t) == Block() then Unchanged else Update)
      else if Has(t, LEGACY) then Migrate else Append
  }

  /** The file after one run. */
  function Ensured(content: Option<string>): Option<string>
  {
    match Decide(content)
    case Unchanged => content
    case Create => Some(Block() + "\n")
    case Update => Some(Replaced(Read(content.value)))
    case Migrate => Some(content.value + "\n" + Block() + "\n")
    case Append => Some(content.value + "\n" + Block() + "\n")
  }

  const WOULD_CREATE := "Create .gitignore with standard workflow patterns"
  const CREATED := "Created .gitignore with standard workflow patterns"
  const UPDATED := "Updated workflow patterns block in .gitignore"
  const MIGRATED := "Migrated legacy .gitignore patterns to marked block"
  const APPENDED := "Appended standard workflow patterns to .gitignore"

  /** The returned list; empty means no change. */
  function Messages(change: Change, dryRun: bool): seq<string>
  {
    match change
    case Unchanged => []
    case Create => [if dryRun then WOULD_CREATE else CREATED]
    case Update => [UPDATED]
    case Migrate => [MIGRATED]
    case Append => [APPENDED]
  }

  class GitignoreFile {
    var content: Option<string>

    constructor (content: Option<string>)
      ensures this.content == content
    {
      this.content := content;
    }

    /** `ensure_gitignore_patterns` as the program runs it: a dry run decides the same and writes nothing. */
    method EnsureGitignorePatterns(dryRun: bool) returns (changes: seq<string>)
      modifies this
      ensures changes == Messages(Decide(old(content)), dryRun)
      ensures content == if dryRun then old(content) else Ensured(old(content))
    {
      var block := Block();
      if content.None? {
        if dryRun {
          return [WOULD_CREATE];
        }
        content := Some(block + "\n");
        return [CREATED];
      }
      var text := Read(content.value);
      changes := [];
      if Has(text, START) && Has(text, END) {
        var startIdx := IndexOf(text, START);
        var endIdx := IndexOf(text, END) + |END|;
        var existing := if startIdx <= endIdx then text[startIdx..endIdx] else "";
        if existing == block {
          return [];
        }
        assert Decide(old(content)) == Update;
        changes := changes + [UPDATED];
        if !dryRun {
          content := Some(text[..startIdx] + block + text[endIdx..]);
        }
        return changes;
      }
      if Has(text, LEGACY) {
        assert Decide(old(content)) == Migrate;
        changes := changes + [MIGRATED];
        if !dryRun {
          content := Some(content.value + "\n" + block + "\n");
        }
        return changes;
      }
      assert Decide(old(content)) == Append;
      changes := changes + [APPENDED];
      if !dryRun {
        content := Some(content.value + "\n" + block + "\n");
      }
    }
  }

  // ----- what the constants guarantee

  /** A marker: one line with "#" in front and nowhere else, and its first "=" in third place. */
  predicate Marker(m: string)
  {
    && |m| > 3 && m[0] == '#' && m[1] != '=' && m[2] == '='
    && forall k :: 0 < k < |m| ==> m[k] != '#' && m[k] != '\n'
  }

  lemma MarkerFacts()
    ensures Marker(START) && Marker(END) && |END| <= |START| && START[..|END|] != END
  {
    assert START[..|END|][19] == 'S' && END[19] == 'E';
  }

  /** Neither a marker's "=" nor a carriage return. */
  predicate Plain(p: string) { '=' !in p && '\r' !in p }

  predicate PlainFrom(lines: seq<string>, from: nat, to: nat)
  {
    from <= to <= |lines| && forall i :: from <= i < to ==> Plain(lines[i])
  }

  lemma TrackedPlain()
    ensures PlainFrom(TRACKED, 0, 1) && PlainFrom(TRACKED, 1, 4)
  {
    TrackedCommentPlain();
  }

  lemma TrackedCommentPlain()
    ensures PlainFrom(TRACKED, 0, 1)
  {
  }

  lemma CopiesPlain()
    ensures PlainFrom(COPIES, 0, 1) && PlainFrom(COPIES, 1, 6) && PlainFrom(COPIES, 6, 11)
  {
    CopiesCommentPlain();
    FirstCopiesPlain();
  }

  lemma CopiesCommentPlain()
    ensures PlainFrom(COPIES, 0, 1)
  {
  }

  lemma FirstCopiesPlain()
    ensures PlainFrom(COPIES, 1, 6)
  {
  }

  lemma DataPlain()
    ensures PlainFrom(DATA, 0, 1) && PlainFrom(DATA, 1, 5)
  {
    DataCommentPlain();
  }

  lemma DataCommentPlain()
    ensures PlainFrom(DATA, 0, 1)
  {
  }

  lemma PatternsPlain()
    ensures forall p :: p in PATTERNS ==> Plain(p)
  {
    TrackedPlain();
    CopiesPlain();
    DataPlain();
    PlainSum(TRACKED, COPIES, DATA, PATTERNS);
  }

  lemma PlainSum(a: seq<string>, b: seq<string>, c: seq<string>, all: seq<string>)
    requires |a| == 4 && |b| == 11 && |c| == 5 && all == a + [""] + b + [""] + c
    requires PlainFrom(a, 0, 1) && PlainFrom(a, 1, 4)
    requires PlainFrom(b, 0, 1) && PlainFrom(b, 1, 6) && PlainFrom(b, 6, 11)
    requires PlainFrom(c, 0, 1) && PlainFrom(c, 1, 5)
    ensures forall p :: p in all ==> Plain(p)
  {
    assert forall p :: p in all <==> p in a || p == "" || p in b || p in c;
  }

  lemma {:induction false} JoinPlain(parts: seq<string>, sep: string)
    requires Plain(sep) && forall p :: p in parts ==> Plain(p)
    ensures Plain(Join(parts, sep))
  {
    if parts != [] { assert parts[0] in parts; }
    if |parts| > 1 { JoinPlain(parts[1..], sep); }
  }

  lemma {:induction false} JoinSnoc(parts: seq<string>, last: string, sep: string)
    requires parts != []
    ensures Join(parts + [last], sep) == Join(parts, sep) + sep + last
  {
    if |parts| > 1 {
      assert (parts + [last])[1..] == parts[1..] + [last];
      JoinSnoc(parts[1..], last, sep);
      assert Join(parts + [last], sep) == parts[0] + sep + (Join(parts[1..], sep) + sep + last);
    }
  }

  /** A block: two different markers around text without "=". */
  ghost predicate Bracketed(b: string, s: string, middle: string, e: string)
  {
    && Marker(s) && Marker(e) && |e| <= |s| && s[..|e|] != e
    && '=' !in middle && b == s + middle + e
  }

  lemma BlockBracketed() returns (middle: string)
    ensures Bracketed(Block(), START, middle, END) && '\r' !in Block()
  {
    var patterns := Join(PATTERNS, "\n");
    middle := "\n" + patterns + "\n";
    MarkerFacts();
    PatternsPlain();
    JoinPlain(PATTERNS, "\n");
    BlockIs(START, PATTERNS, END);
    assert Block() == START + middle + END;
    assert '\r' !in START && '\r' !in END;
  }

  lemma BlockIs(s: string, lines: seq<string>, e: string)
    requires lines != []
    ensures Join([s] + lines + [e], "\n") == s + ("\n" + Join(lines, "\n") + "\n") + e
  {
    JoinSnoc([s] + lines, e, "\n");
    assert ([s] + lines)[1..] == lines;
    assert Join([s] + lines, "\n") == s + "\n" + Join(lines, "\n");
  }

  // ----- where markers can stand

  /** No marker straddles the start of a block. */
  lemma NoStraddle(x: string, b: string, y: string, m: string, j: nat)
    requires Marker(m) && b != "" && b[0] == '#' && Free(x, m) && j < |x|
    ensures !Occurs(x + b + y, m, j)
  {
    var t := x + b + y;
    if j + |m| <= |x| {
      assert t[j..j + |m|] == x[j..j + |m|];
      assert !Occurs(x, m, j);
    } else {
      Mismatch(t, m, j, |x| - j);
    }
  }

  /** The first start marker of a text with a block is the block's, when none stands before it. */
  lemma StartFirst(x: string, b: string, y: string, s: string, middle: string, e: string)
    requires Bracketed(b, s, middle, e) && Free(x, s)
    ensures IndexOf(x + b + y, s) == |x| && Has(x + b + y, s)
  {
    var t := x + b + y;
    forall j | 0 <= j < |x| ensures !Occurs(t, s, j) { NoStraddle(x, b, y, s, j); }
    assert t[|x|..|x| + |s|] == s;
    IndexIs(t, s, |x|);
  }

  lemma NotInside(x: string, b: string, y: string, s: string, middle: string, e: string, k: nat)
    requires Bracketed(b, s, middle, e) && k < |b| - |e|
    ensures !Occurs(x + b + y, e, |x| + k)
  {
    var t := x + b + y;
    var n := |s| + |middle|;
    assert t[|x| + k] == b[k] && t[|x| + k + 2] == b[k + 2];
    if k == 0 {
      assert t[|x|..|x| + |e|] == s[..|e|];
    } else if k < |s| {
      Mismatch(t, e, |x| + k, 0);
    } else {
      assert b[k + 2] == if k + 2 < n then middle[k + 2 - |s|] else e[k + 2 - n];
      assert b[k + 2] != '=';
      Mismatch(t, e, |x| + k, 2);
    }
  }

  lemma NoEarlierEnd(x: string, b: string, y: string, s: string, middle: string, e: string, j: nat)
    requires Bracketed(b, s, middle, e) && Free(x, e) && j < |x + s + middle|
    ensures !Occurs(x + b + y, e, j)
  {
    if j < |x| { NoStraddle(x, b, y, e, j); } else { NotInside(x, b, y, s, middle, e, j - |x|); }
  }

  lemma OccursBetween(p: string, m: string, q: string)
    ensures Occurs(p + m + q, m, |p|)
  {
    assert (p + m + q)[|p|..|p| + |m|] == m;
  }

  lemma FirstBetween(p: string, m: string, q: string)
    requires m != "" && forall j :: 0 <= j < |p| ==> !Occurs(p + m + q, m, j)
    ensures IndexOf(p + m + q, m) == |p| && Has(p + m + q, m)
  {
    OccursBetween(p, m, q);
    IndexIs(p + m + q, m, |p|);
  }

  /** So is the first end marker. */
  lemma EndFirst(x: string, b: string, y: string, s: string, middle: string, e: string)
    requires Bracketed(b, s, middle, e) && Free(x, e)
    ensures IndexOf(x + b + y, e) == |x| + |b| - |e| && Has(x + b + y, e)
  {
    var front := x + (s + middle);
    assert x + b == front + e by { Reassociate(x, s + middle, e); }
    forall j | 0 <= j < |front| ensures !Occurs(x + b + y, e, j) { NoEarlierEnd(x, b, y, s, middle, e, j); }
    FirstBetween(front, e, y);
  }

  // ----- what a run makes of a text

  /** No end marker precedes the first start marker. */
  predicate Good(t: string) { InOrder(t, START, END) }

  predicate InOrder(t: string, s: string, e: string)
    requires s != "" && e != ""
  {
    Has(t, e) ==> Has(t, s) && IndexOf(t, s) < IndexOf(t, e)
  }

  /** A file that a run leaves alone: `x`, the block, `y`, with no marker in `x`. */
  ghost predicate Settled(content: string, x: string, y: string)
  {
    Read(content) == x + Block() + y && Free(x, START) && Free(x, END)
  }

  lemma SettledStays(content: string, x: string, y: string)
    requires Settled(content, x, y)
    ensures Decide(Some(content)) == Unchanged && Ensured(Some(content)) == Some(content)
  {
    var middle := BlockBracketed();
    var b := Block();
    var t := x + b + y;
    StartFirst(x, b, y, START, middle, END);
    EndFirst(x, b, y, START, middle, END);
    assert t[|x|..|x| + |b|] == b;
  }

  /** Neither marker in `t` or in what a newline adds to it. */
  lemma FreeBeforeNewline(t: string, m: string)
    requires Marker(m) && Free(t, m)
    ensures Free(t + "\n", m)
  {
    forall j: nat
      ensures !Occurs(t + "\n", m, j)
    {
      if j + |m| <= |t| {
        assert (t + "\n")[j..j + |m|] == t[j..j + |m|];
        assert !Occurs(t, m, j);
      } else if j <= |t| {
        MismatchAt(t + "\n", m, j, |t| - j);
      }
    }
  }

  lemma MismatchAt(t: string, m: string, j: nat, p: nat)
    requires Marker(m) && j + p < |t| && t[j + p] == '\n'
    ensures !Occurs(t, m, j) || |m| <= p
  {
    if p < |m| { Mismatch(t, m, j, p); }
  }

  lemma OccursInPrefix(t: string, n: nat, m: string, j: nat)
    requires j + |m| <= n <= |t|
    ensures Occurs(t[..n], m, j) == Occurs(t, m, j)
  {
    assert t[..n][j..j + |m|] == t[j..j + |m|];
  }

  lemma FreePrefix(t: string, m: string, n: nat)
    requires n <= |t| && m != "" && forall j :: 0 <= j < n ==> !Occurs(t, m, j)
    ensures Free(t[..n], m)
  {
    forall j: nat
      ensures !Occurs(t[..n], m, j)
    {
      if j + |m| <= n { OccursInPrefix(t, n, m, j); }
    }
  }

  /** A marker found in a prefix is found at the same place in the whole. */
  lemma FirstInPrefix(t: string, more: string, m: string)
    requires m != "" && Has(t, m)
    ensures Has(t + more, m) && IndexOf(t + more, m) == IndexOf(t, m)
  {
    var i := IndexOf(t, m);
    assert Occurs(t + more, m, i) by { assert (t + more)[i..i + |m|] == t[i..i + |m|]; }
    forall j | 0 <= j < i
      ensures !Occurs(t + more, m, j)
    {
      assert !Occurs(t, m, j);
      assert (t + more)[j..j + |m|] == t[j..j + |m|];
    }
    IndexIs(t + more, m, i);
  }

  lemma ReplacedSettles(t: string)
    requires Has(t, START) && Has(t, END) && Good(t) && '\r' !in t
    ensures Settled(Replaced(t), t[..IndexOf(t, START)], t[IndexOf(t, END) + |END|..])
  {
    var from, to := IndexOf(t, START), IndexOf(t, END);
    FreePrefix(t, START, from);
    FreePrefix(t, END, from);
    var middle := BlockBracketed();
    UniversalNewlinesIff(Replaced(t));
  }

  /** What separates the appended block from the text before it, as it is read back. */
  function Separator(content: string): string { if EndsBare(content) then "" else "\n" }

  lemma AppendedReads(content: string, block: string)
    requires '\r' !in block
    ensures Read(content + "\n" + block + "\n") == Read(content) + Separator(content) + block + "\n"
  {
    var u := block + "\n";
    assert content + "\n" + block + "\n" == content + ("\n" + u);
    UniversalNewlinesAppend(content, u);
    assert Read(content) + Separator(content) + block + "\n" == Read(content) + (Separator(content) + u);
  }

  lemma FreeBeforeSeparator(content: string, m: string)
    requires Marker(m) && Free(Read(content), m)
    ensures Free(Read(content) + Separator(content), m)
  {
    FreeBeforeNewline(Read(content), m);
    assert Read(content) + "" == Read(content);
  }

  // ----- the fixpoint

  function Iterate<T>(f: T -> T, x: T, n: nat): T { if n == 0 then x else f(Iterate(f, x, n - 1)) }

  /** A value that one application leaves alone is left alone by all later ones. */
  lemma {:induction false} IterateStays<T>(f: T -> T, x: T, m: nat, n: nat)
    requires m <= n && f(Iterate(f, x, m)) == Iterate(f, x, m)
    ensures Iterate(f, x, n) == Iterate(f, x, m)
  {
    if m < n { IterateStays(f, x, m, n - 1); }
  }

  lemma IterateTwice<T>(f: T -> T, x: T)
    ensures Iterate(f, x, 1) == f(x) && Iterate(f, x, 2) == f(f(x))
  {
    assert Iterate(f, x, 0) == x;
    assert Iterate(f, x, 1) == f(x);
  }

  /** The file after `n` runs. */
  function Runs(content: Option<string>, n: nat): Option<string> { Iterate(Ensured, content, n) }

  /** What stands before the block once the file has settled: all text up to the first start marker. */
  function Before(content: string): string
  {
    var t := Read(content);
    if Has(t, START) then t[..IndexOf(t, START)] else t + Separator(content)
  }

  /** What stands after it: the text behind the first end marker, if there is one. */
  function After(content: string): string
  {
    var t := Read(content);
    if Has(t, END) then t[IndexOf(t, END) + |END|..] else "\n"
  }

  lemma CutThree(t: string, from: nat, to: nat)
    requires from <= to <= |t|
    ensures t == t[..from] + t[from..to] + t[to..]
  {
  }

  lemma UpToDateSettled(t: string, block: string)
    requires Has(t, START) && Has(t, END) && Good(t) && Span(t) == block
    ensures t == t[..IndexOf(t, START)] + block + t[IndexOf(t, END) + |END|..]
  {
    CutThree(t, IndexOf(t, START), IndexOf(t, END) + |END|);
  }

  lemma WithBothSettles(content: string)
    requires var t := Read(content); Has(t, START) && Has(t, END) && Good(t)
    ensures Ensured(Some(content)).Some? && Settled(Ensured(Some(content)).value, Before(content), After(content))
  {
    var t := Read(content);
    assert '\r' !in t by { UniversalNewlinesIff(content); }
    ReplacedSettles(t);
    if Span(t) == Block() {
      UpToDateSettled(t, Block());
    }
  }

  lemma WithNeitherSettles(content: string)
    requires var t := Read(content); !Has(t, START) && !Has(t, END)
    ensures Ensured(Some(content)).Some? && Settled(Ensured(Some(content)).value, Before(content), After(content))
  {
    var t := Read(content);
    var middle := BlockBracketed();
    AppendedReads(content, Block());
    FreeIff(t, START);
    FreeIff(t, END);
    FreeBeforeSeparator(content, START);
    FreeBeforeSeparator(content, END);
  }

  /** A text with a start marker only, after a block was appended to it. */
  lemma StartThenBlock(t: string, sep: string, b: string, y: string, s: string, middle: string, e: string)
    requires s != "" && Has(t, s) && Bracketed(b, s, middle, e) && Free(t + sep, e)
    ensures var u := t + sep + b + y;
            && Has(u, s) && IndexOf(u, s) == IndexOf(t, s)
            && Has(u, e) && IndexOf(u, e) == |t + sep + b| - |e|
  {
    EndFirst(t + sep, b, y, s, middle, e);
    var more := sep + b + y;
    FirstInPrefix(t, more, s);
    assert t + more == t + sep + b + y;
  }

  lemma AppendedEnds(t: string, sep: string, b: string, y: string)
    ensures var u := t + sep + b + y; u[..|t|] == t && u[|t + sep + b|..] == y
  {
  }

  /** One run on a text with a start marker only. */
  lemma StartOnlyReads(content: string) returns (u: string)
    requires var t := Read(content); Has(t, START) && !Has(t, END)
    ensures Ensured(Some(content)).Some? && Read(Ensured(Some(content)).value) == u
    ensures Has(u, START) && IndexOf(u, START) == IndexOf(Read(content), START) && Has(u, END)
    ensures var t := Read(content); |t| < IndexOf(u, END) && u[..|t|] == t && u[IndexOf(u, END) + |END|..] == "\n"
  {
    var t, sep, b := Read(content), Separator(content), Block();
    var middle := BlockBracketed();
    assert Free(t + sep, END) by {
      FreeIff(t, END);
      FreeBeforeSeparator(content, END);
    }
    AppendedReads(content, b);
    u := t + sep + b + "\n";
    StartThenBlock(t, sep, b, "\n", START, middle, END);
    AppendedEnds(t, sep, b, "\n");
  }

  lemma SameFront(t: string, u: string, i: nat)
    requires i <= |t| <= |u| && u[..|t|] == t
    ensures u[..i] == t[..i]
  {
    assert u[..i] == u[..|t|][..i];
  }

  lemma WithStartOnly(content: string)
    requires var t := Read(content); Has(t, START) && !Has(t, END)
    ensures var next := Ensured(Some(content));
            && next.Some? && Has(Read(next.value), START) && Has(Read(next.value), END) && Good(Read(next.value))
            && Before(next.value) == Before(content) && After(next.value) == After(content)
  {
    var u := StartOnlyReads(content);
    SameFront(Read(content), u, IndexOf(u, START));
  }

  /** Two runs settle every file in which no end marker precedes the first start marker: the text up to
      the first start marker, then the block, then the text behind the first end marker. After that no
      run reports or makes a change. */
  lemma GoodSettlesInTwo(content: string, n: nat)
    requires Good(Read(content)) && n >= 2
    ensures Decide(Runs(Some(content), n)) == Unchanged
    ensures Runs(Some(content), n).Some?
         && Read(Runs(Some(content), n).value) == Before(content) + Block() + After(content)
  {
    var settled := SettledAfterTwo(content);
    IterateTwice(Ensured, Some(content));
    SettledStays(settled, Before(content), After(content));
    IterateStays(Ensured, Some(content), 2, n);
  }

  lemma SettledAfterTwo(content: string) returns (settled: string)
    requires Good(Read(content))
    ensures Ensured(Ensured(Some(content))) == Some(settled) && Settled(settled, Before(content), After(content))
  {
    var t := Read(content);
    if Has(t, START) && !Has(t, END) {
      WithStartOnly(content);
      WithBothSettles(Ensured(Some(content)).value);
      settled := Ensured(Ensured(Some(content))).value;
    } else {
      if Has(t, START) { WithBothSettles(content); } else { WithNeitherSettles(content); }
      settled := Ensured(Some(content)).value;
      SettledStays(settled, Before(content), After(content));
    }
  }

  /** A missing file is created settled. */
  lemma CreatedIsSettled(n: nat)
    requires n >= 1
    ensures Runs(None, n) == Some(Block() + "\n") && Decide(Runs(None, n)) == Unchanged
  {
    var middle := BlockBracketed();
    UniversalNewlinesIff(Block() + "\n");
    assert "" + Block() + "\n" == Block() + "\n";
    FreeIff("", START);
    FreeIff("", END);
    SettledStays(Block() + "\n", "", "\n");
    IterateTwice(Ensured, None);
    IterateStays(Ensured, None, 1, n);
  }

  // ----- no fixpoint

  lemma SliceStart(t: string, i: nat, n: nat, k: nat)
    requires i + n <= |t| && k <= n
    ensures t[i..i + n][..k] == t[i..i + k]
  {
  }

  /** The two markers never stand at the same place, and an earlier end marker is over before the start
      marker begins. */
  lemma EndThenStart(t: string, s: string, e: string)
    requires Marker(s) && Marker(e) && |e| <= |s| && s[..|e|] != e && Has(t, s) && Has(t, e)
    ensures IndexOf(t, s) != IndexOf(t, e)
    ensures IndexOf(t, e) < IndexOf(t, s) ==> IndexOf(t, e) + |e| <= IndexOf(t, s)
  {
    var i, j := IndexOf(t, s), IndexOf(t, e);
    assert t[i..i + |s|] == s && t[j..j + |e|] == e;
    SliceStart(t, i, |s|, |e|);
    if j < i < j + |e| {
      assert t[i] == s[0] by { assert t[i..i + |s|][0] == t[i]; }
      Mismatch(t, e, j, i - j);
    }
  }

  lemma EndInPrefix(t: string, e: string, n: nat)
    requires n <= |t| && e != "" && Has(t, e) && IndexOf(t, e) + |e| <= n
    ensures Has(t[..n], e) && IndexOf(t[..n], e) == IndexOf(t, e)
  {
    var j := IndexOf(t, e);
    OccursInPrefix(t, n, e, j);
    forall k | 0 <= k < j ensures !Occurs(t[..n], e, k) { OccursInPrefix(t, n, e, k); }
    IndexIs(t[..n], e, j);
  }

  /** A block put in place of what stands from the first start marker on, the end marker being earlier. */
  lemma WrongOrder(t: string, i: nat, b: string, y: string, s: string, middle: string, e: string)
    requires Bracketed(b, s, middle, e) && Has(t, s) && Has(t, e) && IndexOf(t, e) + |e| <= i == IndexOf(t, s)
    ensures var u := t[..i] + b + y;
            Has(u, s) && Has(u, e) && IndexOf(u, e) < IndexOf(u, s)
  {
    var x := t[..i];
    var u := x + b + y;
    assert IndexOf(u, s) == i && Has(u, s) by {
      FreePrefix(t, s, i);
      StartFirst(x, b, y, s, middle, e);
    }
    assert Has(x, e) && IndexOf(x, e) == IndexOf(t, e) by { EndInPrefix(t, e, i); }
    var more := b + y;
    Reassociate(x, b, y);
    assert u == x + more;
    FirstInPrefix(x, more, e);
  }

  /** Replacing in the wrong order leaves the order wrong and the text longer. */
  lemma WrongOrderStays(t: string)
    requires Has(t, START) && Has(t, END) && !Good(t) && '\r' !in t
    ensures !Good(Replaced(t)) && '\r' !in Replaced(t)
    ensures |Replaced(t)| >= |t| + |Block()| && Span(t) != Block()
  {
    var i, j, b := IndexOf(t, START), IndexOf(t, END) + |END|, Block();
    var middle := BlockBracketed();
    assert j <= i by { EndThenStart(t, START, END); }
    assert !InOrder(t[..i] + b + t[j..], START, END) by { WrongOrder(t, i, b, t[j..], START, middle, END); }
    ReturnFree(t, i, j, b);
  }

  lemma ReturnFree(t: string, i: nat, j: nat, b: string)
    requires '\r' !in t && '\r' !in b && j <= i <= |t|
    ensures '\r' !in t[..i] + b + t[j..] && |t[..i] + b + t[j..]| >= |t| + |b|
  {
  }

  lemma Reassociate4(a: string, b: string, c: string, d: string)
    ensures a + b + c + d == a + (b + c + d)
  {
  }

  /** A text with an end marker only, after a block was appended to it. */
  lemma EndThenBlock(t: string, sep: string, b: string, y: string, s: string, middle: string, e: string)
    requires e != "" && Has(t, e) && Bracketed(b, s, middle, e) && Free(t + sep, s)
    ensures var u := t + sep + b + y;
            && Has(u, s) && IndexOf(u, s) == |t + sep|
            && Has(u, e) && IndexOf(u, e) == IndexOf(t, e)
  {
    var u, more := t + sep + b + y, sep + b + y;
    assert Has(u, s) && IndexOf(u, s) == |t + sep| by { StartFirst(t + sep, b, y, s, middle, e); }
    Reassociate4(t, sep, b, y);
    FirstInPrefix(t, more, e);
  }

  predicate Bad(content: Option<string>) { content.Some? && !Good(Read(content.value)) }

  function Size(content: Option<string>): nat { if content.Some? then |Read(content.value)| else 0 }

  /** One run on a file in which an end marker precedes the first start marker. */
  lemma BadGrows(content: Option<string>)
    requires Bad(content)
    ensures Decide(content) != Unchanged
    ensures Bad(Ensured(content)) && Size(Ensured(content)) >= Size(content) + |Block()|
  {
    var raw := content.value;
    var t, sep, b := Read(raw), Separator(raw), Block();
    if Has(t, START) {
      UniversalNewlinesIff(raw);
      WrongOrderStays(t);
      UniversalNewlinesIff(Replaced(t));
    } else {
      var middle := BlockBracketed();
      assert Free(t + sep, START) by {
        FreeIff(t, START);
        FreeBeforeSeparator(raw, START);
      }
      AppendedReads(raw, b);
      EndThenBlock(t, sep, b, "\n", START, middle, END);
    }
  }

  lemma {:induction false} IterateGrows<T(!new)>(f: T -> T, bad: T -> bool, size: T -> nat, k: nat, x: T, n: nat)
    requires bad(x) && forall y :: bad(y) ==> bad(f(y)) && size(f(y)) >= size(y) + k
    ensures bad(Iterate(f, x, n)) && size(Iterate(f, x, n)) >= size(x) + n * k
  {
    if n > 0 {
      IterateGrows(f, bad, size, k, x, n - 1);
      OneMore(n, k);
    }
  }

  lemma SpliceChanges(t: string, i: nat, j: nat, b: string)
    requires i <= |t| && j <= |t| && (if i <= j then t[i..j] else "") != b
    ensures t[..i] + b + t[j..] != t
  {
    var u := t[..i] + b + t[j..];
    assert |u| == |t| + |b| + i - j;
    if |b| == j - i { assert u[i..j] == b; }
  }

  /** An empty report means that the file stays as it is, and only then it does. */
  lemma EmptyReportIff(content: Option<string>)
    ensures Messages(Decide(content), false) == [] <==> Ensured(content) == content
  {
    if Decide(content) == Update {
      var t := Read(content.value);
      var middle := BlockBracketed();
      UniversalNewlinesIff(content.value);
      SpliceChanges(t, IndexOf(t, START), IndexOf(t, END) + |END|, Block());
    }
  }

  /** What the report says, and when: a file with both marker lines `s` and `e` is reported if it changes,
      without them a mention of the copied scripts' directory decides, and a dry run differs in one word. */
  lemma ReportSays(content: Option<string>, dryRun: bool, s: string, e: string, legacy: string)
    requires s == "# === WORKFLOW KIT START ===" && e == "# === WORKFLOW KIT END ==="
    requires legacy == "/ai-workflow/scripts/"
    ensures content.None? ==>
              Messages(Decide(content), dryRun) ==
                [if dryRun then "Create .gitignore with standard workflow patterns"
                 else "Created .gitignore with standard workflow patterns"]
    ensures content.Some? ==>
              var t := UniversalNewlines(content.value);
              Messages(Decide(content), dryRun) ==
                if Has(t, s) && Has(t, e) then
                  (if Ensured(content) == content then [] else ["Updated workflow patterns block in .gitignore"])
                else if Has(t, legacy) then ["Migrated legacy .gitignore patterns to marked block"]
                else ["Appended standard workflow patterns to .gitignore"]
  {
    if content.Some? { EmptyReportIff(content); }
  }

  /** Runs on a file in which an end marker precedes the first start marker: each one changes the file and
      adds at least a block to it. */
  lemma BadNeverSettles(content: Option<string>, n: nat)
    requires Bad(content)
    ensures Decide(Runs(content, n)) != Unchanged && Size(Runs(content, n)) >= Size(content) + n * |Block()|
  {
    forall c | Bad(c) ensures Bad(Ensured(c)) && Size(Ensured(c)) >= Size(c) + |Block()| { BadGrows(c); }
    IterateGrows(Ensured, Bad, Size, |Block()|, content, n);
    BadGrows(Runs(content, n));
  }

  lemma OneMore(n: nat, k: nat)
    requires n > 0
    ensures n * k == (n - 1) * k + k
  {
  }

  /** Some number of runs reaches a file that a further run leaves alone if and only if no end marker
      precedes the first start marker, and then two runs are enough. */
  lemma SettlesIff(content: string)
    ensures (exists n: nat :: Decide(Runs(Some(content), n)) == Unchanged) <==> Good(Read(content))
    ensures Good(Read(content)) <==> Decide(Runs(Some(content), 2)) == Unchanged
  {
    if Good(Read(content)) {
      GoodSettlesInTwo(content, 2);
    } else {
      forall n: nat ensures Decide(Runs(Some(content), n)) != Unchanged { BadNeverSettles(Some(content), n); }
    }
  }

  lemma AloneIsBad(e: string, s: string)
    requires e != "" && '\r' !in e && |s| > |e|
    ensures Read(e) == e && !InOrder(e, s, e)
  {
    UniversalNewlinesIff(e);
    IndexIs(e, e, 0);
    FreeIff(e, s);
  }

  lemma MarkerSizes()
    ensures 0 < |END| < |START| && '\r' !in END
  {
    assert |START| == 28 && |END| == 26;
  }

  /** A file that holds a stray end marker is rewritten on every run, for ever. */
  lemma StrayEndNeverSettles(n: nat)
    ensures Decide(Runs(Some(END), n)) != Unchanged && Size(Runs(Some(END), n)) >= |END| + n * |Block()|
  {
    MarkerSizes();
    AloneIsBad(END, START);
    assert Bad(Some(END));
    BadNeverSettles(Some(END), n);
  }
}
