/** Commit-pinned URLs: how the exporter builds them, and how the URL validator reads them back. */
module SemanticUrl {
  import opened Options
  import opened Text

  predicate LowerHex(c: char) { '0' <= c <= '9' || 'a' <= c <= 'f' }

  predicate Hex(c: char) { LowerHex(c) || 'A' <= c <= 'F' }

  // ----- building

  /** What the resolver accepts as a commit, in either case. */
  predicate AcceptedSha(s: string)
  {
    7 <= |s| <= 40 && forall i :: 0 <= i < |s| ==> Hex(s[i])
  }

  predicate IsPathSafe(path: string)
  {
    && path != "" && !StartsWith(path, "/")
    && !StartsWith(path, "../") && path != ".."
    && ".." !in Split(path, '/')
  }

  predicate IsUrl(path: string) { StartsWith(path, "http://") || StartsWith(path, "https://") }

  /** `resolve_in_repo_path_to_url_pinned`, the origin being what git or the environment says. */
  function PinnedUrl(path: string, origin: Option<string>, commit: Option<string>, ref: Option<string>): Option<string>
  {
    if !IsPathSafe(path) then None
    else if IsUrl(path) then Some(path)
    else if origin.None? || origin.value == "" then None
    else if commit.Some? && commit.value != "" then
      var sha := Strip(commit.value);
      if AcceptedSha(sha) then Some(origin.value + "/blob/" + sha + "/" + path) else None
    else if ref.Some? && ref.value != "" then
      var r := Strip(ref.value);
      if r == "" || '/' in r || '?' in r || '&' in r || '\\' in r then None
      else Some(origin.value + "/blob/" + r + "/" + path)
    else None
  }

  function Suffixed(resource: string, field: string): string
  {
    resource + (if '?' in resource then "&" else "?") + field
  }

  function RangeField(range: (string, string)): string { "range=" + range.0 + ".." + range.1 }

  /** The content hash, then the commit range, appended to the resource. */
  function WithRefs(resource: string, refs: Refs): string
  {
    var hashed := if refs.hash.Some? && refs.hash.value != "" then Suffixed(resource, "hash=" + refs.hash.value)
      else resource;
    if refs.range.Some? then Suffixed(hashed, RangeField(refs.range.value)) else hashed
  }

  // ----- reading: the URL split of section 3 of RFC 3986, as urllib does it

  datatype Url = Url(scheme: string, netloc: string, path: string, query: string, fragment: string)

  function DropControls(s: string): string
  {
    if s != "" && s[0] <= ' ' then DropControls(s[1..]) else s
  }

  predicate Removed(c: char) { c == '\t' || c == '\n' || c == '\r' }

  function Clean(s: string): (r: string)
    ensures forall c :: c in r <==> c in s && !Removed(c)
  {
    if s == "" then "" else if Removed(s[0]) then Clean(s[1..]) else [s[0]] + Clean(s[1..])
  }

  predicate Letter(c: char) { 'a' <= c <= 'z' || 'A' <= c <= 'Z' }

  predicate SchemeChar(c: char) { Letter(c) || '0' <= c <= '9' || c == '+' || c == '-' || c == '.' }

  function CutScheme(s: string): (string, string)
  {
    var i := Find(s, ':');
    if 0 < i < |s| && Letter(s[0]) && forall k :: 0 <= k < i ==> SchemeChar(s[k]) then (Lower(s[..i]), s[i + 1..])
    else ("", s)
  }

  function NetlocEnd(s: string): (n: nat)
    ensures n <= |s|
  {
    if s == "" || s[0] in {'/', '?', '#'} then 0 else 1 + NetlocEnd(s[1..])
  }

  function CutNetloc(s: string): (string, string)
  {
    if !StartsWith(s, "//") then ("", s)
    else
      var rest := s[2..];
      (rest[..NetlocEnd(rest)], rest[NetlocEnd(rest)..])
  }

  function CutAt(s: string, c: char): (r: (string, string))
  {
    var i := Find(s, c);
    (s[..i], if i < |s| then s[i + 1..] else "")
  }

  /** A ";" in the last segment starts the parameters, which are not part of the path. */
  function StripParams(path: string): string
    decreases |path|
  {
    var i := Find(path, '/');
    if i < |path| then path[..i + 1] + StripParams(path[i + 1..]) else CutAt(path, ';').0
  }

  /** The schemes whose last segment may carry parameters. */
  const USES_PARAMS := {"", "ftp", "hdl", "prospero", "http", "https", "shttp", "rtsp", "rtspu", "sip", "sips",
                        "mms", "sftp", "tel"}

  /** `urlparse(url)` */
  function UrlParse(url: string): Url
  {
    var (scheme, afterScheme) := CutScheme(Clean(DropControls(url)));
    var (netloc, rest) := CutNetloc(afterScheme);
    var (noFragment, fragment) := CutAt(rest, '#');
    var (path, query) := CutAt(noFragment, '?');
    Url(scheme, netloc, if scheme in USES_PARAMS then StripParams(path) else path, query, fragment)
  }

  // ----- reading: the layers

  /** `_SHA_RE` */
  predicate Sha(s: string)
  {
    7 <= |s| <= 40 && forall i :: 0 <= i < |s| ==> LowerHex(s[i])
  }

  /** `_SHA256_RE` */
  predicate Sha256(s: string)
  {
    |s| == 71 && s[..7] == "sha256:" && forall i :: 7 <= i < |s| ==> LowerHex(s[i])
  }

  datatype Refs = Refs(hash: Option<string>, range: Option<(string, string)>)

  const NONE := Refs(None, None)

  /** Layer 0: `/<org>/<repo>/blob/<sha>` on GitHub, with anything below it. */
  function CommitOf(u: Url): Option<string>
  {
    if u.netloc in {"github.com", "www.github.com"} && StartsWith(u.path, "/") then
      var parts := Split(u.path[1..], '/');
      if |parts| >= 4 && parts[0] != "" && parts[1] != "" && parts[2] == "blob" && Sha(parts[3]) then Some(parts[3])
      else None
    else None
  }

  /** Index of the first ".." in `v`, or `|v|`. */
  function FindDots(v: string): (i: nat)
    ensures i <= |v|
    ensures i < |v| ==> i + 2 <= |v| && v[i] == '.' && v[i + 1] == '.'
    ensures forall j :: 0 <= j < i && j + 1 < |v| ==> v[j] != '.' || v[j + 1] != '.'
  {
    if v == "" then 0 else if |v| >= 2 && v[0] == '.' && v[1] == '.' then 0 else 1 + FindDots(v[1..])
  }

  /** The value of a range field, if it is two commits around "..". */
  function RangeOf(v: string): Option<(string, string)>
  {
    var i := FindDots(v);
    if i < |v| && Sha(v[..i]) && Sha(v[i + 2..]) then Some((v[..i], v[i + 2..])) else None
  }

  /** One "key=value" of the query: a well-formed hash or range replaces an earlier one. */
  function ReadField(kv: string, refs: Refs): Refs
  {
    var (k, v) := CutAt(kv, '=');
    if '=' !in kv then refs
    else if k == "hash" && Sha256(v) then refs.(hash := Some(v))
    else if k == "range" && RangeOf(v).Some? then refs.(range := RangeOf(v))
    else refs
  }

  function ReadFields(kvs: seq<string>, refs: Refs): Refs
  {
    if kvs == [] then refs else ReadFields(kvs[1..], ReadField(kvs[0], refs))
  }

  function QueryRefs(query: string): Refs { ReadFields(Split(query, '&'), NONE) }

  /** `parse_semantic_url` as the program runs it. */
  method ParseSemanticUrl(url: string) returns (commit: Option<string>, refs: Refs)
    ensures commit == CommitOf(UrlParse(url))
    ensures refs == QueryRefs(UrlParse(url).query)
  {
    var parsed := UrlParse(url);
    commit := CommitOf(parsed);
    refs := NONE;
    if parsed.query != "" {
      var kvs := Split(parsed.query, '&');
      for i := 0 to |kvs|
        invariant ReadFields(kvs[i..], refs) == ReadFields(kvs, NONE)
      {
        assert kvs[i..][0] == kvs[i] && kvs[i..][1..] == kvs[i + 1..];
        var (k, v) := CutAt(kvs[i], '=');
        if '=' in kvs[i] {
          if k == "hash" && Sha256(v) {
            refs := refs.(hash := Some(v));
          } else if k == "range" && RangeOf(v).Some? {
            refs := refs.(range := RangeOf(v));
          }
        }
      }
    } else {
      SplitOne("", '&');
      assert [""][1..] == [];
    }
  }

  // ----- how the pieces of a URL come apart

  lemma {:induction false} CleanAppend(a: string, b: string)
    ensures Clean(a + b) == Clean(a) + Clean(b)
  {
    if a == "" {
      assert a + b == b;
    } else {
      assert (a + b)[1..] == a[1..] + b;
      CleanAppend(a[1..], b);
    }
  }

  predicate Unbroken(s: string) { forall c :: c in s ==> !Removed(c) }

  lemma {:induction false} CleanUnbroken(s: string)
    requires Unbroken(s)
    ensures Clean(s) == s
  {
    if s != "" {
      assert s[0] in s;
      CleanUnbroken(s[1..]);
    }
  }

  lemma CutAtFirst(a: string, c: char, b: string)
    requires c !in a
    ensures CutAt(a + [c] + b, c) == (a, b)
  {
    FindIs(a, c, [c] + b);
    assert a + [c] + b == a + ([c] + b);
  }

  lemma CutAtNone(a: string, c: char)
    requires c !in a
    ensures CutAt(a, c) == (a, "")
  {
    FindIs(a, c, "");
    assert a + "" == a;
  }

  lemma CutParts(s: string, c: char) returns (a: string, b: string)
    ensures (a, b) == CutAt(s, c) && c !in a
    ensures if c in s then s == a + [c] + b else s == a && b == ""
  {
    a, b := CutAt(s, c).0, CutAt(s, c).1;
    var i := Find(s, c);
    if i == |s| { assert s[..i] == s; }
  }

  lemma CutAfterPrefix(a: string, c: char, b: string)
    requires c !in a
    ensures CutAt(a + b, c) == (a + CutAt(b, c).0, CutAt(b, c).1)
  {
    var x, y := CutParts(b, c);
    if c in b {
      assert a + b == (a + x) + [c] + y;
      CutAtFirst(a + x, c, y);
    } else {
      CutAtNone(a + b, c);
    }
  }

  lemma ParamsAfterSegment(s: string, x: string, rest: string)
    requires '/' !in x && s == x + ['/'] + rest
    ensures StripParams(s) == x + ['/'] + StripParams(rest)
  {
    FindIs(x, '/', ['/'] + rest);
    assert s == x + (['/'] + rest);
    assert s[..|x| + 1] == x + ['/'] && s[|x| + 1..] == rest;
  }

  lemma FirstSegment(a: string, c: char) returns (x: string, rest: string)
    requires a != "" && a[|a| - 1] == c
    ensures a == x + [c] + rest && c !in x && |rest| < |a|
    ensures rest == "" || rest[|rest| - 1] == c
  {
    x, rest := CutParts(a, c);
    assert rest != "" ==> rest[|rest| - 1] == a[|a| - 1];
  }

  /** Parameters are looked for in the last segment only. */
  lemma {:induction false} ParamsAfterPrefix(a: string, b: string)
    requires a != "" && a[|a| - 1] == '/'
    ensures StripParams(a + b) == a + StripParams(b)
    decreases |a|
  {
    var x, rest := FirstSegment(a, '/');
    var segment, ab, more := x + ['/'], a + b, rest + b;
    assert ab == segment + more by { Reassociate(segment, rest, b); }
    assert StripParams(ab) == segment + StripParams(more) by { ParamsAfterSegment(ab, x, more); }
    if rest == "" {
      assert more == b && a == segment;
    } else {
      ParamsAfterPrefix(rest, b);
      Reassociate(segment, rest, StripParams(b));
    }
  }

  // ----- a pinned URL comes apart into what it was made of

  /** An organisation or repository name: one path segment. */
  predicate Segment(s: string)
  {
    s != "" && forall c :: c in s ==> c !in {'/', '?', '#'} && !Removed(c)
  }

  predicate Host(s: string) { s == "github.com" || s == "www.github.com" }

  function Front(org: string, repo: string, sha: string): string
  {
    "/" + org + "/" + repo + "/blob/" + sha + "/"
  }

  lemma FrontChars(org: string, repo: string, sha: string)
    requires Segment(org) && Segment(repo) && AcceptedSha(sha)
    ensures var f := Front(org, repo, sha); Unbroken(f) && '#' !in f && '?' !in f
    ensures '/' !in sha
  {
    forall c | c in Front(org, repo, sha)
      ensures !Removed(c) && c != '#' && c != '?'
    {
      assert c in org || c in repo || c in sha || c in "/blob/";
    }
  }

  /** A host with an optional port and user. */
  predicate Authority(s: string) { forall c :: c in s ==> c !in {'/', '?', '#', '[', ']'} && !Removed(c) }

  /** What can follow it. */
  predicate PastHost(s: string) { s == "" || s[0] in {'/', '?', '#'} }

  lemma {:induction false} NetlocIs(host: string, rest: string)
    requires forall c :: c in host ==> c !in {'/', '?', '#'}
    requires PastHost(rest)
    ensures NetlocEnd(host + rest) == |host|
  {
    if host == "" {
      assert host + rest == rest;
    } else {
      assert host[0] in host && forall c :: c in host[1..] ==> c in host;
      assert (host + rest)[1..] == host[1..] + rest;
      NetlocIs(host[1..], rest);
    }
  }

  lemma SchemeIs(rest: string)
    ensures CutScheme("https://" + rest) == ("https", "//" + rest)
  {
    var s := "https://" + rest;
    FindIs("https", ':', "://" + rest);
    assert "https" + ("://" + rest) == s;
    assert s[..5] == "https" && s[6..] == "//" + rest;
    assert Lower("https") == "https";
    assert forall k :: 0 <= k < 5 ==> s[k] == "https"[k] && SchemeChar("https"[k]);
  }

  lemma CleanPrefix(a: string, b: string)
    requires a != "" && a[0] > ' ' && Unbroken(a)
    ensures Clean(DropControls(a + b)) == a + Clean(b)
  {
    CleanAppend(a, b);
    CleanUnbroken(a);
  }

  lemma CleanHttps(host: string, rest: string)
    requires Authority(host)
    ensures Clean(DropControls("https://" + host + rest)) == "https://" + (host + Clean(rest))
  {
    var a := "https://" + host;
    assert a[0] == 'h';
    assert Unbroken(a) by { assert forall c :: c in a ==> c in "https://" || c in host; }
    CleanPrefix(a, rest);
    Reassociate("https://", host, Clean(rest));
  }

  lemma NetlocCut(host: string, rest: string)
    requires Authority(host) && PastHost(rest)
    ensures CutNetloc("//" + (host + rest)) == (host, rest)
  {
    NetlocIs(host, rest);
    assert ("//" + (host + rest))[2..] == host + rest;
  }

  /** The parse of "https://<host><rest>", with a path, a query, a fragment or nothing after the host. */
  lemma HttpsParse(host: string, rest: string)
    requires Authority(host) && PastHost(Clean(rest))
    ensures UrlParse("https://" + host + rest) ==
              var r := Clean(rest); var cut := CutAt(CutAt(r, '#').0, '?');
              Url("https", host, StripParams(cut.0), cut.1, CutAt(r, '#').1)
  {
    CleanHttps(host, rest);
    SchemeIs(host + Clean(rest));
    NetlocCut(host, Clean(rest));
  }

  /** The query of a path with its suffixes: everything after a "#" is out of it. */
  function QueryIn(tail: string): string { CutAt(CutAt(Clean(tail), '#').0, '?').1 }

  function PathIn(tail: string): string { CutAt(CutAt(Clean(tail), '#').0, '?').0 }

  lemma PinnedParse(host: string, org: string, repo: string, sha: string, tail: string)
    requires Host(host) && Segment(org) && Segment(repo) && AcceptedSha(sha)
    ensures var u := UrlParse("https://" + host + (Front(org, repo, sha) + tail));
            u.netloc == host && u.path == Front(org, repo, sha) + StripParams(PathIn(tail)) && u.query == QueryIn(tail)
  {
    var front, t := Front(org, repo, sha), Clean(tail);
    FrontChars(org, repo, sha);
    assert Clean(front + tail) == front + t by { CleanAppend(front, tail); CleanUnbroken(front); }
    HttpsParse(host, front + tail);
    CutAfterPrefix(front, '#', t);
    CutAfterPrefix(front, '?', CutAt(t, '#').0);
    ParamsAfterPrefix(front, PathIn(tail));
  }

  lemma FrontNested(org: string, repo: string, sha: string, rest: string)
    ensures (Front(org, repo, sha) + rest)[1..]
         == org + ['/'] + (repo + ['/'] + ("blob" + ['/'] + (sha + ['/'] + rest)))
  {
    var s2 := "blob" + ['/'] + (sha + ['/'] + rest);
    assert "/blob/" + sha + "/" + rest == "/" + s2;
    assert Front(org, repo, sha) + rest == "/" + org + "/" + repo + ("/blob/" + sha + "/" + rest);
    assert "/" + org + "/" + repo + ("/" + s2) == "/" + (org + ['/'] + (repo + ['/'] + s2));
  }

  lemma SplitFront(org: string, repo: string, sha: string, rest: string)
    requires Segment(org) && Segment(repo) && '/' !in sha
    ensures Split((Front(org, repo, sha) + rest)[1..], '/') == [org, repo] + (["blob", sha] + Split(rest, '/'))
  {
    var s := (Front(org, repo, sha) + rest)[1..];
    var s2 := "blob" + ['/'] + (sha + ['/'] + rest);
    assert s == org + ['/'] + (repo + ['/'] + s2) by { FrontNested(org, repo, sha, rest); }
    assert Split(s2, '/') == ["blob", sha] + Split(rest, '/') by { SplitTwo(s2, '/', "blob", sha, rest); }
    assert Split(s, '/') == [org, repo] + Split(s2, '/') by { SplitTwo(s, '/', org, repo, s2); }
  }

  lemma CommitInFront(u: Url, org: string, repo: string, sha: string, rest: string)
    requires Host(u.netloc) && u.path == Front(org, repo, sha) + rest
    requires Segment(org) && Segment(repo) && AcceptedSha(sha)
    ensures CommitOf(u) == if Sha(sha) then Some(sha) else None
  {
    FrontChars(org, repo, sha);
    SplitFront(org, repo, sha, rest);
    var parts := Split(u.path[1..], '/');
    assert parts[0] == org && parts[1] == repo && parts[2] == "blob" && parts[3] == sha;
  }

  // ----- what is read, in terms of the text

  predicate LowerHexText(s: string, least: nat, most: nat)
  {
    least <= |s| <= most && forall i :: 0 <= i < |s| ==> '0' <= s[i] <= '9' || 'a' <= s[i] <= 'f'
  }

  /** "/org/repo/blob/sha", and anything below it. */
  ghost predicate BlobPath(path: string, sha: string)
  {
    exists org: string, repo: string, rest: string :: BlobOf(path, org, repo, sha, rest)
  }

  predicate BlobOf(path: string, org: string, repo: string, sha: string, rest: string)
  {
    && org != "" && repo != "" && '/' !in org && '/' !in repo && (rest == "" || rest[0] == '/')
    && path == "/" + org + "/" + repo + "/blob/" + sha + rest
  }

  /** The commit is the segment after "blob" of a path on the two hosts, if it is 7 to 40 lowercase
      hexadecimal digits, and nothing else is. */
  lemma CommitOfIff(u: Url, sha: string)
    ensures CommitOf(u) == Some(sha) <==>
              && (u.netloc == "github.com" || u.netloc == "www.github.com")
              && BlobPath(u.path, sha) && LowerHexText(sha, 7, 40)
  {
    if CommitOf(u) == Some(sha) { CommitIsInPath(u.path, Split(u.path[1..], '/'), "blob", sha); }
    if Host(u.netloc) && BlobPath(u.path, sha) && LowerHexText(sha, 7, 40) { BlobIsRead(u, sha); }
  }

  lemma BlobIsRead(u: Url, sha: string)
    requires Host(u.netloc) && BlobPath(u.path, sha) && LowerHexText(sha, 7, 40)
    ensures CommitOf(u) == Some(sha)
  {
    var org: string, repo: string, rest: string :| BlobOf(u.path, org, repo, sha, rest);
    BlobSplits(u.path, org, repo, sha, rest);
    FourFirst(Split(u.path[1..], '/'), org, repo, "blob", sha);
    assert Sha(sha);
  }

  lemma FourFirst(parts: seq<string>, a: string, b: string, c: string, d: string)
    requires [a, b, c, d] <= parts
    ensures |parts| >= 4 && parts[0] == a && parts[1] == b && parts[2] == c && parts[3] == d
  {
    assert [a, b, c, d][0] == a;
  }

  lemma BlobSplits(path: string, org: string, repo: string, sha: string, rest: string)
    requires '/' !in org && '/' !in repo && '/' !in sha && (rest == "" || rest[0] == '/')
    requires path == "/" + org + "/" + repo + "/blob/" + sha + rest
    ensures StartsWith(path, "/") && [org, repo, "blob", sha] <= Split(path[1..], '/')
  {
    var tail := sha + rest;
    assert path[1..] == org + ['/'] + (repo + ['/'] + ("blob" + ['/'] + tail));
    SplitTwo(path[1..], '/', org, repo, "blob" + ['/'] + tail);
    SplitCons("blob" + ['/'] + tail, "blob", '/', tail);
    FirstOfSplit(sha, '/', rest);
  }

  lemma FirstOfSplit(x: string, c: char, rest: string)
    requires c !in x && (rest == "" || rest[0] == c)
    ensures Split(x + rest, c)[0] == x
  {
    if rest == "" {
      assert x + rest == x;
      SplitOne(x, c);
    } else {
      assert x + rest == x + [c] + rest[1..];
      SplitCons(x + rest, x, c, rest[1..]);
    }
  }

  lemma PeelLast(s: string, c: char, a: string, more: seq<string>) returns (rest: string)
    requires Split(s, c) == [a] + more
    ensures s == a + rest && (rest == "" || rest[0] == c)
  {
    var i := Find(s, c);
    assert Split(s, c)[0] == s[..i] && ([a] + more)[0] == a;
    rest := s[i..];
  }

  lemma Peel(s: string, c: char, a: string, more: seq<string>) returns (rest: string)
    requires Split(s, c) == [a] + more && more != []
    ensures s == a + [c] + rest && Split(rest, c) == more && c !in a
  {
    var i := Find(s, c);
    assert Split(s, c)[0] == s[..i] && ([a] + more)[0] == a;
    assert i < |s|;
    rest := s[i + 1..];
    assert Split(s, c)[1..] == more;
  }

  lemma TwoSegments(s: string, c: char, a: string, b: string, more: seq<string>) returns (rest: string)
    requires Split(s, c) == [a] + ([b] + more) && more != []
    ensures s == a + [c] + (b + [c] + rest) && Split(rest, c) == more && c !in a && c !in b
  {
    var s1 := Peel(s, c, a, [b] + more);
    rest := Peel(s1, c, b, more);
  }

  lemma FourSegments(s: string, c: char, a: string, b: string, x: string, d: string, tail: seq<string>)
    returns (rest: string)
    requires Split(s, c) == [a] + ([b] + ([x] + ([d] + tail)))
    ensures s == a + [c] + (b + [c] + (x + [c] + (d + rest))) && (rest == "" || rest[0] == c)
    ensures c !in a && c !in b
  {
    var s2 := TwoSegments(s, c, a, b, [x] + ([d] + tail));
    var s3 := Peel(s2, c, x, [d] + tail);
    rest := PeelLast(s3, c, d, tail);
  }

  lemma CommitIsInPath(path: string, parts: seq<string>, blob: string, sha: string)
    requires StartsWith(path, "/") && parts == Split(path[1..], '/') && blob == "blob"
    requires |parts| >= 4 && parts[0] != "" && parts[1] != "" && parts[2] == blob && parts[3] == sha
    ensures BlobPath(path, sha)
  {
    var org, repo := parts[0], parts[1];
    assert parts == [org] + ([repo] + ([blob] + ([sha] + parts[4..])));
    var rest := FourSegments(path[1..], '/', org, repo, blob, sha, parts[4..]);
    BlobShape(path, org, repo, sha, rest);
  }

  lemma BlobShape(path: string, org: string, repo: string, sha: string, rest: string)
    requires StartsWith(path, "/") && org != "" && repo != "" && '/' !in org && '/' !in repo
    requires path[1..] == org + ['/'] + (repo + ['/'] + ("blob" + ['/'] + (sha + rest)))
    requires rest == "" || rest[0] == '/'
    ensures BlobOf(path, org, repo, sha, rest)
  {
    var s2 := "blob" + ['/'] + (sha + rest);
    assert "/" + s2 == "/blob/" + sha + rest;
    assert path == "/" + (org + ['/'] + (repo + ['/'] + s2));
    assert path == "/" + org + "/" + repo + ("/" + s2);
    assert "/" + org + "/" + repo + ("/blob/" + sha + rest) == "/" + org + "/" + repo + "/blob/" + sha + rest;
  }

  // ----- the suffixes

  /** A value that stands in a query field undisturbed. */
  predicate FieldValue(s: string)
  {
    forall c :: c in s ==> c != '&' && c != '#' && !Removed(c)
  }

  /** References with field values only; an empty hash is not written. */
  predicate WellFormed(refs: Refs)
  {
    && (refs.hash.Some? ==> refs.hash.value != "" && FieldValue(refs.hash.value))
    && (refs.range.Some? ==> FieldValue(refs.range.value.0) && FieldValue(refs.range.value.1))
  }

  /** The fields written for `refs`, in order. */
  function Fields(refs: Refs): seq<string>
  {
    (if refs.hash.Some? then ["hash=" + refs.hash.value] else []) +
    (if refs.range.Some? then [RangeField(refs.range.value)] else [])
  }

  /** What reading keeps of written references: each layer only if it is well formed. */
  function Kept(refs: Refs): Refs
  {
    Refs(if refs.hash.Some? && Sha256(refs.hash.value) then refs.hash else None,
         if refs.range.Some? && Sha(refs.range.value.0) && Sha(refs.range.value.1) then refs.range else None)
  }

  /** `later` where it says something, `earlier` elsewhere. */
  function Over(later: Refs, earlier: Refs): Refs
  {
    Refs(if later.hash.Some? then later.hash else earlier.hash,
         if later.range.Some? then later.range else earlier.range)
  }

  lemma RangeReads(a: string, b: string)
    ensures RangeOf(a + ".." + b) == if Sha(a) && Sha(b) then Some((a, b)) else None
  {
    var v := a + ".." + b;
    var i := FindDots(v);
    assert v[|a|] == '.' && v[|a| + 1] == '.';
    assert i <= |a|;
    if i == |a| {
      assert v[..i] == a && v[i + 2..] == b;
    } else if i + 1 == |a| {
      assert v[i + 2..][0] == '.';
      assert a[i] == '.';
    } else {
      assert v[i + 2..][|a| - i - 2] == '.';
      assert a[i] == '.';
    }
  }

  lemma CutField(k: string, v: string)
    requires '=' !in k
    ensures CutAt(k + "=" + v, '=') == (k, v) && '=' in k + "=" + v
  {
    CutAtFirst(k, '=', v);
    assert (k + "=" + v)[|k|] == '=';
  }

  lemma HashReads(h: string, refs: Refs)
    ensures ReadField("hash=" + h, refs) == if Sha256(h) then refs.(hash := Some(h)) else refs
  {
    CutField("hash", h);
    assert "hash" + "=" + h == "hash=" + h;
  }

  lemma RangeFieldReads(r: (string, string), refs: Refs)
    ensures ReadField(RangeField(r), refs) == if Sha(r.0) && Sha(r.1) then refs.(range := Some(r)) else refs
  {
    var v := r.0 + ".." + r.1;
    CutField("range", v);
    assert "range" + "=" + v == RangeField(r);
    RangeReads(r.0, r.1);
  }

  lemma FieldsRead(refs: Refs, earlier: Refs)
    ensures ReadFields(Fields(refs), earlier) == Over(Kept(refs), earlier)
  {
    var hashed := if refs.hash.Some? then ["hash=" + refs.hash.value] else [];
    var ranged := if refs.range.Some? then [RangeField(refs.range.value)] else [];
    ReadFieldsAppend(hashed, ranged, earlier);
    if refs.hash.Some? { HashReads(refs.hash.value, earlier); }
    if refs.range.Some? { RangeFieldReads(refs.range.value, ReadFields(hashed, earlier)); }
  }

  lemma {:induction false} ReadFieldsAppend(a: seq<string>, b: seq<string>, refs: Refs)
    ensures ReadFields(a + b, refs) == ReadFields(b, ReadFields(a, refs))
  {
    if a == [] {
      assert a + b == b;
    } else {
      assert (a + b)[1..] == a[1..] + b;
      ReadFieldsAppend(a[1..], b, ReadField(a[0], refs));
    }
  }

  /** What is appended to a resource that has (`started`) or has not a query. */
  function Suffix(refs: Refs, started: bool): string
  {
    if Fields(refs) == [] then "" else (if started then "&" else "?") + Join(Fields(refs), "&")
  }

  lemma BothFields(resource: string, h: string, r: string)
    ensures Suffixed(Suffixed(resource, h), r) == resource + ((if '?' in resource then "&" else "?") + (h + "&" + r))
  {
    var sep := if '?' in resource then "&" else "?";
    var hashed := Suffixed(resource, h);
    assert '?' in hashed by { assert '?' !in resource ==> hashed[|resource|] == '?'; }
    assert resource + sep + h + "&" + r == resource + (sep + (h + "&" + r));
  }

  lemma WithRefsIs(pre: string, path: string, refs: Refs)
    requires '?' !in pre && WellFormed(refs)
    ensures WithRefs(pre + path, refs) == pre + (path + Suffix(refs, '?' in path))
  {
    var resource := pre + path;
    var sep := if '?' in path then "&" else "?";
    assert '?' in resource <==> '?' in path;
    if refs.hash.Some? && refs.range.Some? {
      var h, r := "hash=" + refs.hash.value, RangeField(refs.range.value);
      assert Fields(refs) == [h, r] && Join([h, r], "&") == h + "&" + r;
      BothFields(resource, h, r);
    } else if refs.hash.Some? {
      assert Fields(refs) == ["hash=" + refs.hash.value];
    } else if refs.range.Some? {
      assert Fields(refs) == [RangeField(refs.range.value)];
    } else {
      assert path + "" == path;
    }
  }

  /** The suffix of a resource without a query of its own, hash before range. */
  lemma SuffixText(resource: string, h: string, a: string, b: string)
    requires '?' !in resource && h != ""
    ensures WithRefs(resource, Refs(Some(h), None)) == resource + ("?" + "hash=" + h)
    ensures WithRefs(resource, Refs(None, Some((a, b)))) == resource + ("?" + "range=" + a + ".." + b)
    ensures WithRefs(resource, Refs(Some(h), Some((a, b))))
         == resource + ("?" + "hash=" + h + "&" + "range=" + a + ".." + b)
    ensures WithRefs(resource, NONE) == resource
  {
    var hash, range := "hash=" + h, "range=" + a + ".." + b;
    BothFields(resource, hash, range);
    assert resource + "?" + hash == resource + ("?" + "hash=" + h);
    assert "?" + (hash + "&" + range) == "?" + "hash=" + h + "&" + "range=" + a + ".." + b;
    assert resource + "?" + range == resource + ("?" + "range=" + a + ".." + b);
  }

  lemma FieldsPlain(refs: Refs)
    requires WellFormed(refs)
    ensures forall f :: f in Fields(refs) ==> FieldValue(f)
  {
    if refs.range.Some? {
      forall c | c in RangeField(refs.range.value)
        ensures c != '&' && c != '#' && !Removed(c)
      {
        assert c in "range=.." || c in refs.range.value.0 || c in refs.range.value.1;
      }
    }
  }

  lemma JoinedFields(refs: Refs)
    requires WellFormed(refs) && Fields(refs) != []
    ensures var q := Join(Fields(refs), "&"); Split(q, '&') == Fields(refs) && Unbroken(q) && '#' !in q
  {
    FieldsPlain(refs);
    var fields := Fields(refs);
    if |fields| == 1 {
      assert fields[0] in fields;
      SplitOne(fields[0], '&');
    } else {
      assert fields[0] in fields && fields[1] in fields;
      SplitPair(fields[0], '&', fields[1]);
    }
  }

  lemma SplitPair(a: string, c: char, b: string)
    requires c !in a && c !in b
    ensures Split(a + [c] + b, c) == [a, b]
  {
    SplitCons(a + [c] + b, a, c, b);
    SplitOne(b, c);
  }

  // ----- the query of a suffixed path

  /** Reading `path` with its suffix: the path's own references, replaced by the appended ones. */
  lemma SuffixReads(path: string, refs: Refs)
    requires WellFormed(refs) && '#' !in path
    ensures QueryRefs(QueryIn(path + Suffix(refs, '?' in path))) == Over(Kept(refs), QueryRefs(QueryIn(path)))
  {
    var suffix := Suffix(refs, '?' in path);
    var t := Clean(path);
    assert QueryIn(path) == CutAt(t, '?').1 by { CutAtNone(t, '#'); }
    if Fields(refs) == [] {
      assert path + suffix == path;
    } else {
      JoinedFields(refs);
      var q := Join(Fields(refs), "&");
      assert QueryIn(path + suffix) == CutAt(t + suffix, '?').1 by {
        CleanAppend(path, suffix);
        CleanUnbroken(suffix);
        CutAtNone(t + suffix, '#');
      }
      if '?' in path {
        AppendedQuery(t, suffix, q, refs);
      } else {
        NewQuery(t, suffix, q, refs);
      }
    }
  }

  lemma NewQuery(t: string, suffix: string, q: string, refs: Refs)
    requires '?' !in t && suffix == "?" + q && Split(q, '&') == Fields(refs)
    ensures QueryRefs(CutAt(t + suffix, '?').1) == Over(Kept(refs), QueryRefs(CutAt(t, '?').1))
  {
    assert CutAt(t, '?').1 == "" by { CutAtNone(t, '?'); }
    assert CutAt(t + suffix, '?').1 == q by {
      CutAtFirst(t, '?', q);
      assert t + ['?'] + q == t + suffix;
    }
    EmptyQuery();
    FieldsRead(refs, NONE);
  }

  lemma AppendedQuery(t: string, suffix: string, q: string, refs: Refs)
    requires '?' in t && suffix == "&" + q && Split(q, '&') == Fields(refs)
    ensures QueryRefs(CutAt(t + suffix, '?').1) == Over(Kept(refs), QueryRefs(CutAt(t, '?').1))
  {
    var a, b := CutParts(t, '?');
    assert t + suffix == a + ['?'] + (b + suffix);
    CutAtFirst(a, '?', b + suffix);
    assert b + suffix == b + ['&'] + q;
    SplitAppend(b + suffix, b, '&', q);
    ReadFieldsAppend(Split(b, '&'), Split(q, '&'), NONE);
    FieldsRead(refs, QueryRefs(b));
  }

  lemma EmptyQuery()
    ensures QueryRefs("") == NONE
  {
    SplitOne("", '&');
    assert ReadField("", NONE) == NONE;
    assert ReadFields([""], NONE) == ReadFields([""][1..], NONE);
  }

  lemma CutIgnoresTail(t: string, c: char, more: string)
    requires c in t
    ensures CutAt(t + more, c).0 == CutAt(t, c).0
  {
    var a, b := CutParts(t, c);
    var front := a + [c];
    assert t == front + b;
    Reassociate(front, b, more);
    CutAtFirst(a, c, b + more);
  }

  /** After a "#" nothing that is appended is read. */
  lemma FragmentHides(path: string, suffix: string)
    requires '#' in path
    ensures QueryIn(path + suffix) == QueryIn(path)
  {
    CleanAppend(path, suffix);
    CutIgnoresTail(Clean(path), '#', Clean(suffix));
  }

  // ----- which field counts

  predicate HashText(h: string) { |h| == 71 && h[..7] == "sha256:" && LowerHexText(h[7..], 64, 64) }

  predicate HashField(kv: string, h: string) { kv == "hash=" + h && HashText(h) }

  predicate RangeText(kv: string, a: string, b: string)
  {
    kv == "range=" + a + ".." + b && LowerHexText(a, 7, 40) && LowerHexText(b, 7, 40)
  }

  lemma HashTextIff(h: string)
    ensures HashText(h) <==> Sha256(h)
  {
    if |h| == 71 { assert forall i :: 0 <= i < 64 ==> h[7..][i] == h[i + 7]; }
  }

  lemma KeyedField(kv: string) returns (k: string, v: string)
    requires '=' in kv
    ensures (k, v) == CutAt(kv, '=') && kv == k + "=" + v
  {
    k, v := CutParts(kv, '=');
  }

  lemma HashKept(kv: string, refs: Refs)
    ensures forall h :: HashField(kv, h) ==> ReadField(kv, refs).hash == Some(h)
    ensures (forall h :: !HashField(kv, h)) ==> ReadField(kv, refs).hash == refs.hash
  {
    forall h | HashField(kv, h)
      ensures ReadField(kv, refs).hash == Some(h)
    {
      HashTextIff(h);
      HashReads(h, refs);
    }
    if '=' in kv {
      var k, v := KeyedField(kv);
      if k == "hash" && Sha256(v) {
        HashTextIff(v);
        assert kv == "hash=" + v;
        assert HashField(kv, v);
      }
    }
  }

  lemma RangeKept(kv: string, refs: Refs, a: string, b: string)
    requires RangeText(kv, a, b)
    ensures ReadField(kv, refs).range == Some((a, b))
  {
    ShasAre(a, b);
    RangeFieldReads((a, b), refs);
  }

  lemma ShasAre(a: string, b: string)
    ensures LowerHexText(a, 7, 40) <==> Sha(a)
    ensures LowerHexText(b, 7, 40) <==> Sha(b)
  {
  }

  lemma RangeIs(kv: string, front: string, v: string, a: string, b: string)
    requires kv == front + v && RangeOf(v) == Some((a, b))
    ensures kv == front + a + ".." + b && Sha(a) && Sha(b)
  {
    assert v == a + ".." + b;
    assert front + (a + ".." + b) == front + a + ".." + b;
  }

  lemma RangeChanged(kv: string, refs: Refs) returns (a: string, b: string)
    requires ReadField(kv, refs).range != refs.range
    ensures RangeText(kv, a, b)
  {
    var k, v := KeyedField(kv);
    a, b := RangeOf(v).value.0, RangeOf(v).value.1;
    assert "range" + "=" == "range=";
    RangeIs(kv, "range=", v, a, b);
    ShasAre(a, b);
  }

  lemma {:induction false} LastHash(kvs: seq<string>, refs: Refs) returns (i: int)
    ensures -1 <= i < |kvs| && forall k, h :: i < k < |kvs| ==> !HashField(kvs[k], h)
    ensures var r := ReadFields(kvs, refs);
            if i == -1 then r.hash == refs.hash else r.hash.Some? && HashField(kvs[i], r.hash.value)
  {
    if kvs == [] { return -1; }
    var kv, rest := kvs[0], kvs[1..];
    HashKept(kv, refs);
    i := LastHash(rest, ReadField(kv, refs));
    assert forall k :: 0 < k < |kvs| ==> kvs[k] == rest[k - 1];
    if i != -1 {
      i := i + 1;
    } else if h :| HashField(kv, h) {
      i := 0;
    }
  }

  lemma {:induction false} LastRange(kvs: seq<string>, refs: Refs) returns (j: int)
    ensures -1 <= j < |kvs| && forall k, a, b :: j < k < |kvs| ==> !RangeText(kvs[k], a, b)
    ensures var r := ReadFields(kvs, refs);
            if j == -1 then r.range == refs.range
            else r.range.Some? && RangeText(kvs[j], r.range.value.0, r.range.value.1)
  {
    if kvs == [] { return -1; }
    var kv, rest := kvs[0], kvs[1..];
    j := LastRange(rest, ReadField(kv, refs));
    assert forall k :: 0 < k < |kvs| ==> kvs[k] == rest[k - 1];
    if j != -1 {
      j := j + 1;
    } else if a, b :| RangeText(kv, a, b) {
      RangeKept(kv, refs, a, b);
      j := 0;
    } else if ReadField(kv, refs).range != refs.range {
      var a, b := RangeChanged(kv, refs);
      assert false;
    }
  }

  /** The hash is the last field "hash=sha256:" with 64 lowercase hexadecimal digits, the range the last field
      "range=a..b" with two commits, and without such a field there is none; other fields change nothing. */
  lemma LastFieldCounts(query: string) returns (i: int, j: int)
    ensures var kvs, r := Split(query, '&'), QueryRefs(query);
            && -1 <= i < |kvs| && -1 <= j < |kvs|
            && (if i == -1 then r.hash.None? else r.hash.Some? && HashField(kvs[i], r.hash.value))
            && (if j == -1 then r.range.None?
                else r.range.Some? && RangeText(kvs[j], r.range.value.0, r.range.value.1))
            && (forall k, h :: i < k < |kvs| ==> !HashField(kvs[k], h))
            && (forall k, a, b :: j < k < |kvs| ==> !RangeText(kvs[k], a, b))
  {
    i := LastHash(Split(query, '&'), NONE);
    j := LastRange(Split(query, '&'), NONE);
  }

  // ----- which paths are pinned

  lemma PathSafeIff(path: string)
    ensures IsPathSafe(path) <==> path != "" && path[0] != '/' && ".." !in Split(path, '/')
  {
    if path != "" { assert path[..1] == [path[0]]; }
    if StartsWith(path, "../") || path == ".." { ClimbsFirst(path, "..", '/'); }
  }

  lemma ClimbsFirst(path: string, dots: string, c: char)
    requires c !in dots && (StartsWith(path, dots + [c]) || path == dots)
    ensures dots in Split(path, c)
  {
    var rest := path[|dots|..];
    if path != dots { assert (dots + [c])[|dots|] == c && path[..|dots| + 1][..|dots|] == dots; }
    assert path == dots + rest;
    FirstOfSplit(dots, c, rest);
  }

  /** A path is pinned at a commit exactly when it is relative, climbs nowhere, and the commit is, apart from
      white space around it, 7 to 40 hexadecimal digits; a path that is a URL already stands for itself. */
  lemma PinnedUrlIff(path: string, origin: string, commit: string, ref: Option<string>)
    requires origin != "" && commit != ""
    ensures var safe := path != "" && path[0] != '/' && ".." !in Split(path, '/');
            var url := "http://" <= path || "https://" <= path;
            PinnedUrl(path, Some(origin), Some(commit), ref) ==
              if safe && url then Some(path)
              else if safe && LowerHexText(Lower(Strip(commit)), 7, 40) then
                Some(origin + "/blob/" + Strip(commit) + "/" + path)
              else None
  {
    PathSafeIff(path);
    LoweredHex(Strip(commit));
  }

  /** Without a commit, at a branch or tag that is one plain segment. */
  lemma PinnedByRef(path: string, origin: string, ref: string)
    requires origin != "" && ref != ""
    ensures var safe := path != "" && path[0] != '/' && ".." !in Split(path, '/');
            var url := "http://" <= path || "https://" <= path;
            var r := Strip(ref);
            PinnedUrl(path, Some(origin), None, Some(ref)) ==
              if safe && url then Some(path)
              else if safe && r != "" && forall c :: c in r ==> c !in {'/', '?', '&', '\\'} then
                Some(origin + "/blob/" + r + "/" + path)
              else None
  {
    PathSafeIff(path);
  }

  lemma LoweredHex(s: string)
    ensures AcceptedSha(s) <==> LowerHexText(Lower(s), 7, 40)
  {
    assert forall i :: 0 <= i < |s| ==> (Hex(s[i]) <==> LowerHex(Lower(s)[i]));
  }

  // ----- the round trip

  /** The URL the exporter writes for a path at a commit, with its references. */
  function Exported(host: string, org: string, repo: string, commit: string, path: string, refs: Refs): Option<string>
  {
    var url := PinnedUrl(path, Some("https://" + host + "/" + org + "/" + repo), Some(commit), None);
    if url.Some? then Some(WithRefs(url.value, refs)) else None
  }

  lemma ExportedIs(host: string, org: string, repo: string, commit: string, path: string, refs: Refs)
    requires Host(host) && Segment(org) && Segment(repo) && AcceptedSha(Strip(commit))
    requires IsPathSafe(path) && !IsUrl(path) && WellFormed(refs)
    ensures Exported(host, org, repo, commit, path, refs) ==
              Some("https://" + host + (Front(org, repo, Strip(commit)) + (path + Suffix(refs, '?' in path))))
  {
    var sha := Strip(commit);
    var front := Front(org, repo, sha);
    var pre := "https://" + host + front;
    assert commit != "" by { assert |sha| <= |commit|; }
    assert "https://" + host + "/" + org + "/" + repo + "/blob/" + sha + "/" + path == pre + path;
    assert '?' !in pre by { FrontChars(org, repo, sha); }
    WithRefsIs(pre, path, refs);
    Reassociate("https://" + host, front, path + Suffix(refs, '?' in path));
  }

  /** What reading an exported URL returns, for every commit the resolver accepts, every safe path and
      all references. */
  lemma ExportedReads(host: string, org: string, repo: string, commit: string, path: string, refs: Refs)
    requires Host(host) && Segment(org) && Segment(repo) && AcceptedSha(Strip(commit))
    requires IsPathSafe(path) && !IsUrl(path) && WellFormed(refs)
    ensures var url := Exported(host, org, repo, commit, path, refs);
            && url.Some?
            && CommitOf(UrlParse(url.value)) == (if Sha(Strip(commit)) then Some(Strip(commit)) else None)
            && QueryRefs(UrlParse(url.value).query) ==
                 var own := QueryRefs(QueryIn(path));
                 if '#' in path then own else Over(Kept(refs), own)
  {
    var sha := Strip(commit);
    var tail := path + Suffix(refs, '?' in path);
    ExportedIs(host, org, repo, commit, path, refs);
    var u := UrlParse("https://" + host + (Front(org, repo, sha) + tail));
    PinnedParse(host, org, repo, sha, tail);
    CommitInFront(u, org, repo, sha, StripParams(PathIn(tail)));
    if '#' in path {
      FragmentHides(path, Suffix(refs, '?' in path));
    } else {
      SuffixReads(path, refs);
    }
  }

  /** A path that carries no query of its own. */
  lemma NoOwnReferences(path: string)
    requires '?' !in path
    ensures QueryRefs(QueryIn(path)) == NONE
  {
    var a, b := CutParts(Clean(path), '#');
    assert '?' !in a by { assert forall c :: c in a ==> c in Clean(path); }
    CutAtNone(a, '?');
    EmptyQuery();
  }

  /** The round trip: with references to read back, an exported URL parses to exactly the commit, hash and
      range it was made of if and only if the commit is lowercase, the hash and range are well formed and
      the path has no fragment mark. */
  lemma RoundTripIff(host: string, org: string, repo: string, commit: string, path: string, refs: Refs)
    requires Host(host) && Segment(org) && Segment(repo) && AcceptedSha(Strip(commit))
    requires IsPathSafe(path) && !IsUrl(path) && '?' !in path
    requires WellFormed(refs) && refs != NONE
    ensures var url := Exported(host, org, repo, commit, path, refs);
            && url.Some?
            && ((CommitOf(UrlParse(url.value)) == Some(Strip(commit)) && QueryRefs(UrlParse(url.value).query) == refs)
                <==> (forall i :: 0 <= i < |Strip(commit)| ==> LowerHex(Strip(commit)[i]))
                     && (refs.hash.Some? ==> Sha256(refs.hash.value))
                     && (refs.range.Some? ==> Sha(refs.range.value.0) && Sha(refs.range.value.1))
                     && '#' !in path)
  {
    ExportedReads(host, org, repo, commit, path, refs);
    NoOwnReferences(path);
  }
}
