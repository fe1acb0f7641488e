/** Upgrading the kit in a target tree: what is decided for each file, and what a run leaves behind.
    All files are text. */
module Upgrade {
  import opened Options
  import opened Text
  import opened VersionMarker

  /** A path relative to the target root, by its parts. */
  type Path = seq<string>

  datatype File = File(path: Path, content: string)

  datatype Action = Create | Updated | Ignored | Preserved

  type Hash = string -> string

  type Tree = map<Path, string>

  const PRESERVE_RELATIVE_PATHS: seq<Path> := [
    ["ai-workflow", "memory"],
    ["ai-workflow", "memory", "active"],
    ["ai-workflow", "WORKFLOW_INDEX.md"],
    ["ai-workflow", "README.md"]
  ]

  /** `_is_preserved`: one of the preserved paths, or below one. */
  predicate IsPreserved(path: Path)
  {
    exists i :: 0 <= i < |PRESERVE_RELATIVE_PATHS| && PRESERVE_RELATIVE_PATHS[i] <= path
  }

  // ----- one file

  /** Rules 3 to 6: markers if both sides have one, contents otherwise. */
  function Smart(src: string, dst: string, hash: Hash): Action
  {
    var s, d := MarkerOf(src), MarkerOf(dst);
    if s.Some? && d.Some? then
      MarkerVersionParses(s.value);
      MarkerVersionParses(d.value);
      var cmp := CompareMarker(s.value, d.value).value;
      if cmp > 0 then Updated
      else if cmp < 0 then Ignored
      else if hash(src) == hash(dst) then Ignored else Updated
    else if hash(src) == hash(dst) then Ignored
    else Updated
  }

  /** `decide_action` */
  function DecideAction(src: Option<string>, dst: Option<string>, preserved: bool, force: bool, hash: Hash): Action
  {
    if preserved && dst.Some? then Preserved
    else if src.None? then Ignored
    else if dst.None? then Create
    else if force then Updated
    else Smart(src.value, dst.value, hash)
  }

  // ----- the tree

  const VERSION_PATH: Path := ["ai-workflow", "VERSION"]

  /** `read_kit_version` */
  function KitVersionAt(tree: Tree): Option<string>
  {
    if VERSION_PATH !in tree then None
    else
      var raw := Strip(UniversalNewlines(tree[VERSION_PATH]));
      if raw == "" then None
      else Some(if raw[0] == 'v' || raw[0] == 'V' then raw[1..] else raw)
  }

  /** `version.lstrip("vV")` */
  function Bare(version: string): string
  {
    if version != "" && (version[0] == 'v' || version[0] == 'V') then Bare(version[1..]) else version
  }

  predicate ShortCircuit(tree: Tree, kit: string) { KitVersionAt(tree) == Some(Bare(kit)) }

  function TextAt(tree: Tree, path: Path): Option<string>
  {
    if path in tree then Some(UniversalNewlines(tree[path])) else None
  }

  function ActionFor(f: File, tree: Tree, skip: bool, force: bool, hash: Hash): Action
  {
    if skip && f.path in tree then Ignored
    else DecideAction(Some(UniversalNewlines(f.content)), TextAt(tree, f.path), IsPreserved(f.path), force, hash)
  }

  predicate Writes(a: Action) { a == Create || a == Updated }

  /** The decisions of a run, all on the tree it starts from. */
  function Decisions(bundle: seq<File>, tree: Tree, skip: bool, force: bool, hash: Hash): (actions: seq<Action>)
    ensures |actions| == |bundle|
    ensures forall i :: 0 <= i < |bundle| ==> actions[i] == ActionFor(bundle[i], tree, skip, force, hash)
  {
    seq(|bundle|, i requires 0 <= i < |bundle| => ActionFor(bundle[i], tree, skip, force, hash))
  }

  /** The paths for which `a` was decided, in the order of the bundle. */
  function Bucket(bundle: seq<File>, actions: seq<Action>, a: Action): seq<Path>
    requires |actions| == |bundle|
  {
    if bundle == [] then []
    else
      var n := |bundle| - 1;
      Bucket(bundle[..n], actions[..n], a) + (if actions[n] == a then [bundle[n].path] else [])
  }

  /** `onto` with every file copied that is created or updated. */
  function Copied(bundle: seq<File>, actions: seq<Action>, onto: Tree): Tree
    requires |actions| == |bundle|
  {
    if bundle == [] then onto
    else
      var n := |bundle| - 1;
      var copied := Copied(bundle[..n], actions[..n], onto);
      if Writes(actions[n]) then copied[bundle[n].path := bundle[n].content] else copied
  }

  ghost predicate Distinct(bundle: seq<File>)
  {
    forall i, j :: 0 <= i < j < |bundle| ==> bundle[i].path != bundle[j].path
  }

  function Paths(bundle: seq<File>): set<Path> { set f | f in bundle :: f.path }

  /** Files below ai-workflow/ that the bundle no longer has, except preserved ones. */
  function Stale(tree: Tree, bundle: seq<File>): set<Path>
  {
    set p | p in tree && ["ai-workflow"] <= p && p !in Paths(bundle) && !IsPreserved(p)
  }

  /** The program lists the deleted paths sorted. */
  datatype Report = Report(created: seq<Path>, updated: seq<Path>, preserved: seq<Path>, ignored: seq<Path>,
                           deleted: set<Path>)

  function Reported(bundle: seq<File>, actions: seq<Action>, deleted: set<Path>): Report
    requires |actions| == |bundle|
  {
    Report(Bucket(bundle, actions, Create), Bucket(bundle, actions, Updated), Bucket(bundle, actions, Preserved),
           Bucket(bundle, actions, Ignored), deleted)
  }

  /** The options of a run. */
  datatype Flags = Flags(dryRun: bool, forceCleanup: bool, confirmed: bool, force: bool)

  /** What a run reports: neither `dryRun` nor `confirmed` is consulted. */
  function ReportOf(tree: Tree, bundle: seq<File>, kit: string, forceCleanup: bool, force: bool, hash: Hash): Report
  {
    Reported(bundle, Decisions(bundle, tree, ShortCircuit(tree, kit), force, hash),
             if forceCleanup then Stale(tree, bundle) else {})
  }

  /** The tree after a run. */
  function After(tree: Tree, bundle: seq<File>, kit: string, flags: Flags, hash: Hash): Tree
  {
    if flags.dryRun then tree
    else
      var copied := Copied(bundle, Decisions(bundle, tree, ShortCircuit(tree, kit), flags.force, hash), tree);
      var cleaned := if flags.forceCleanup && flags.confirmed then copied - Stale(tree, bundle) else copied;
      cleaned[VERSION_PATH := kit]
  }

  /** The report with one more path in the list of its decision. */
  function Filed(report: Report, path: Path, action: Action): Report
  {
    match action
    case Preserved => report.(preserved := report.preserved + [path])
    case Ignored => report.(ignored := report.ignored + [path])
    case Create => report.(created := report.created + [path])
    case Updated => report.(updated := report.updated + [path])
  }

  lemma NextFiled(bundle: seq<File>, actions: seq<Action>, i: nat, onto: Tree)
    requires i < |bundle| == |actions|
    ensures Reported(bundle[..i + 1], actions[..i + 1], {}) ==
              Filed(Reported(bundle[..i], actions[..i], {}), bundle[i].path, actions[i])
    ensures Copied(bundle[..i + 1], actions[..i + 1], onto) ==
              var copied := Copied(bundle[..i], actions[..i], onto);
              if Writes(actions[i]) then copied[bundle[i].path := bundle[i].content] else copied
  {
    assert bundle[..i + 1][..i] == bundle[..i] && actions[..i + 1][..i] == actions[..i];
  }

  lemma {:induction false} CopiedElsewhere(bundle: seq<File>, actions: seq<Action>, onto: Tree, p: Path)
    requires |actions| == |bundle| && forall i :: 0 <= i < |bundle| ==> bundle[i].path != p
    ensures p in Copied(bundle, actions, onto) <==> p in onto
    ensures p in onto ==> Copied(bundle, actions, onto)[p] == onto[p]
  {
    if bundle != [] { CopiedElsewhere(bundle[..|bundle| - 1], actions[..|bundle| - 1], onto, p); }
  }

  /** A decision depends on the tree only at the file's own path. */
  lemma SameDecision(f: File, a: Tree, b: Tree, skip: bool, force: bool, hash: Hash)
    requires f.path in a <==> f.path in b
    requires f.path in a ==> a[f.path] == b[f.path]
    ensures ActionFor(f, a, skip, force, hash) == ActionFor(f, b, skip, force, hash)
  {
  }

  class Target {
    var files: Tree

    constructor (files: Tree)
      ensures this.files == files
    {
      this.files := files;
    }

    /** `apply_upgrade` as the program runs it. */
    method ApplyUpgrade(bundle: seq<File>, kit: string, flags: Flags, hash: Hash) returns (report: Report)
      requires Distinct(bundle)
      modifies this
      ensures report == ReportOf(old(files), bundle, kit, flags.forceCleanup, flags.force, hash)
      ensures files == After(old(files), bundle, kit, flags, hash)
    {
      var skip := ShortCircuit(files, kit);
      var stale := Stale(files, bundle);
      report := CopyBundle(bundle, skip, flags, hash);
      if flags.forceCleanup {
        report := report.(deleted := stale);
        if !flags.dryRun && flags.confirmed {
          files := files - stale;
        }
      }
      if !flags.dryRun {
        files := files[VERSION_PATH := kit];
      }
    }

    /** The loop over the bundle: each decision looks at the tree as it stands then. */
    method CopyBundle(bundle: seq<File>, skip: bool, flags: Flags, hash: Hash) returns (report: Report)
      requires Distinct(bundle)
      modifies this
      ensures var actions := Decisions(bundle, old(files), skip, flags.force, hash);
              && report == Reported(bundle, actions, {})
              && files == if flags.dryRun then old(files) else Copied(bundle, actions, old(files))
    {
      report := Report([], [], [], [], {});
      ghost var before := files;
      ghost var actions := Decisions(bundle, files, skip, flags.force, hash);
      for i := 0 to |bundle|
        invariant report == Reported(bundle[..i], actions[..i], {})
        invariant files == if flags.dryRun then before else Copied(bundle[..i], actions[..i], before)
      {
        assert ActionFor(bundle[i], files, skip, flags.force, hash) == actions[i] by {
          CopiedElsewhere(bundle[..i], actions[..i], before, bundle[i].path);
          SameDecision(bundle[i], before, files, skip, flags.force, hash);
        }
        report := CopyFile(bundle[i], skip, flags, hash, report, actions[i]);
        NextFiled(bundle, actions, i, before);
      }
      assert bundle[..|bundle|] == bundle && actions[..|bundle|] == actions;
    }

    /** One turn of the loop; `decision` is what the file's decision comes to. */
    method CopyFile(f: File, skip: bool, flags: Flags, hash: Hash, report: Report, ghost decision: Action)
      returns (filed: Report)
      requires decision == ActionFor(f, files, skip, flags.force, hash)
      modifies this
      ensures filed == Filed(report, f.path, decision)
      ensures files == if Writes(decision) && !flags.dryRun then old(files)[f.path := f.content] else old(files)
    {
      var action := ActionFor(f, files, skip, flags.force, hash);
      filed := Filed(report, f.path, action);
      if Writes(action) && !flags.dryRun {
        files := files[f.path := f.content];
      }
    }
  }

  // ----- what a run leaves at each path

  lemma {:induction false} CopiedAt(bundle: seq<File>, actions: seq<Action>, onto: Tree, k: nat)
    requires Distinct(bundle) && k < |bundle| == |actions|
    ensures var p, copied := bundle[k].path, Copied(bundle, actions, onto);
            if Writes(actions[k]) then p in copied && copied[p] == bundle[k].content
            else (p in copied <==> p in onto) && (p in onto ==> copied[p] == onto[p])
  {
    var n := |bundle| - 1;
    if k == n {
      CopiedElsewhere(bundle[..n], actions[..n], onto, bundle[k].path);
    } else {
      CopiedAt(bundle[..n], actions[..n], onto, k);
    }
  }

  lemma {:induction false} BucketAt(bundle: seq<File>, actions: seq<Action>, a: Action, k: nat)
    requires Distinct(bundle) && k < |bundle| == |actions|
    ensures bundle[k].path in Bucket(bundle, actions, a) <==> actions[k] == a
  {
    var n := |bundle| - 1;
    if k == n {
      BucketElsewhere(bundle[..n], actions[..n], a, bundle[k].path);
    } else {
      BucketAt(bundle[..n], actions[..n], a, k);
    }
  }

  lemma {:induction false} BucketElsewhere(bundle: seq<File>, actions: seq<Action>, a: Action, p: Path)
    requires |actions| == |bundle| && forall i :: 0 <= i < |bundle| ==> bundle[i].path != p
    ensures p !in Bucket(bundle, actions, a)
  {
    if bundle != [] { BucketElsewhere(bundle[..|bundle| - 1], actions[..|bundle| - 1], a, p); }
  }

  lemma {:induction false} BucketSizes(bundle: seq<File>, actions: seq<Action>)
    requires |actions| == |bundle|
    ensures |Bucket(bundle, actions, Create)| + |Bucket(bundle, actions, Updated)|
          + |Bucket(bundle, actions, Preserved)| + |Bucket(bundle, actions, Ignored)| == |bundle|
  {
    if bundle != [] { BucketSizes(bundle[..|bundle| - 1], actions[..|bundle| - 1]); }
  }

  /** A new file is created, and nothing else is. */
  lemma CreateIff(f: File, tree: Tree, skip: bool, force: bool, hash: Hash)
    ensures ActionFor(f, tree, skip, force, hash) == Create <==> f.path !in tree
  {
  }

  /** What a real run leaves at the path of a bundled file. */
  lemma AfterBundled(tree: Tree, bundle: seq<File>, kit: string, flags: Flags, hash: Hash, k: nat)
    requires Distinct(bundle) && k < |bundle| && !flags.dryRun && bundle[k].path != VERSION_PATH
    ensures var p, after := bundle[k].path, After(tree, bundle, kit, flags, hash);
            && p in after
            && after[p] ==
                 if Writes(ActionFor(bundle[k], tree, ShortCircuit(tree, kit), flags.force, hash)) || p !in tree
                 then bundle[k].content else tree[p]
  {
    var skip := ShortCircuit(tree, kit);
    var actions := Decisions(bundle, tree, skip, flags.force, hash);
    CopiedAt(bundle, actions, tree, k);
    CreateIff(bundle[k], tree, skip, flags.force, hash);
    assert bundle[k].path in Paths(bundle);
  }

  /** What a real run leaves elsewhere. */
  lemma AfterElsewhere(tree: Tree, bundle: seq<File>, kit: string, flags: Flags, hash: Hash, p: Path)
    requires p !in Paths(bundle) && !flags.dryRun && p != VERSION_PATH
    ensures var after := After(tree, bundle, kit, flags, hash);
            && (p in after <==> p in tree && !(flags.forceCleanup && flags.confirmed && p in Stale(tree, bundle)))
            && (p in after ==> after[p] == tree[p])
  {
    var actions := Decisions(bundle, tree, ShortCircuit(tree, kit), flags.force, hash);
    forall i | 0 <= i < |bundle| ensures bundle[i].path != p { assert bundle[i] in bundle; }
    CopiedElsewhere(bundle, actions, tree, p);
  }

  /** The text `dst` carries a marker of strictly higher rank than the marker of `src`. */
  predicate Outranks(dst: string, src: string)
  {
    MarkerOf(src).Some? && MarkerOf(dst).Some? && CompareMarker(MarkerOf(src).value, MarkerOf(dst).value) == Some(-1)
  }

  lemma SmartIff(src: string, dst: string, hash: Hash)
    ensures Smart(src, dst, hash) == Updated || Smart(src, dst, hash) == Ignored
    ensures Smart(src, dst, hash) == Ignored ==> hash(src) == hash(dst) || Outranks(dst, src)
    ensures Outranks(dst, src) ==> Smart(src, dst, hash) == Ignored
  {
    var s, d := MarkerOf(src), MarkerOf(dst);
    if s.Some? && d.Some? { CompareRange(s.value, d.value); }
  }

  /** A run without the short-circuit brings every bundled file that is not preserved up to the bundle, as
      far as hashes can tell, unless (and only unless) the target's copy differs and outranks it and there is
      no force. */
  lemma BundleArrivesIff(tree: Tree, bundle: seq<File>, kit: string, flags: Flags, hash: Hash, k: nat)
    requires Distinct(bundle) && k < |bundle| && !flags.dryRun && !ShortCircuit(tree, kit)
    requires bundle[k].path != VERSION_PATH && !IsPreserved(bundle[k].path)
    ensures var p, src := bundle[k].path, UniversalNewlines(bundle[k].content);
            var after := After(tree, bundle, kit, flags, hash);
            && p in after
            && (hash(UniversalNewlines(after[p])) == hash(src) <==>
                  !(p in tree && !flags.force && hash(UniversalNewlines(tree[p])) != hash(src)
                    && Outranks(UniversalNewlines(tree[p]), src)))
  {
    var p, src := bundle[k].path, UniversalNewlines(bundle[k].content);
    AfterBundled(tree, bundle, kit, flags, hash, k);
    if p in tree { SmartIff(src, UniversalNewlines(tree[p]), hash); }
  }

  // ----- the report

  lemma BundledIndex(bundle: seq<File>, p: Path) returns (k: nat)
    requires p in Paths(bundle)
    ensures k < |bundle| && bundle[k].path == p
  {
    var f :| f in bundle && f.path == p;
    k :| k < |bundle| && bundle[k] == f;
  }

  /** What the report of a run, dry or real, says about a path is what a confirmed real run does to it;
      every bundled file is in exactly one list. */
  lemma ReportIsHonest(tree: Tree, bundle: seq<File>, kit: string, cleanup: bool, force: bool, hash: Hash, p: Path)
    requires Distinct(bundle) && p != VERSION_PATH
    ensures var report := ReportOf(tree, bundle, kit, cleanup, force, hash);
            var after := After(tree, bundle, kit, Flags(false, cleanup, true, force), hash);
            && (p in report.created <==> p !in tree && p in after)
            && (p in report.deleted <==> p in tree && p !in after)
            && (p in report.updated ==> p in tree && p in after && File(p, after[p]) in bundle)
            && (p in report.preserved || p in report.ignored ==> p in tree && p in after && after[p] == tree[p])
            && (p in tree && p in after && after[p] != tree[p] ==> p in report.updated)
            && |report.created| + |report.updated| + |report.preserved| + |report.ignored| == |bundle|
  {
    var skip := ShortCircuit(tree, kit);
    var actions := Decisions(bundle, tree, skip, force, hash);
    var flags := Flags(false, cleanup, true, force);
    BucketSizes(bundle, actions);
    if p in Paths(bundle) {
      var k := BundledIndex(bundle, p);
      AfterBundled(tree, bundle, kit, flags, hash, k);
      CreateIff(bundle[k], tree, skip, force, hash);
      BucketAt(bundle, actions, Create, k);
      BucketAt(bundle, actions, Updated, k);
      BucketAt(bundle, actions, Preserved, k);
      BucketAt(bundle, actions, Ignored, k);
    } else {
      forall i | 0 <= i < |bundle| ensures bundle[i].path != p { assert bundle[i] in bundle; }
      AfterElsewhere(tree, bundle, kit, flags, hash, p);
      BucketElsewhere(bundle, actions, Create, p);
      BucketElsewhere(bundle, actions, Updated, p);
      BucketElsewhere(bundle, actions, Preserved, p);
      BucketElsewhere(bundle, actions, Ignored, p);
    }
  }

  // ----- user data

  /** An existing file under a preserved path is never written or deleted, whatever the options. */
  lemma PreservedUntouched(tree: Tree, bundle: seq<File>, kit: string, flags: Flags, hash: Hash, p: Path)
    requires Distinct(bundle) && IsPreserved(p) && p in tree
    ensures var after := After(tree, bundle, kit, flags, hash); p in after && after[p] == tree[p]
  {
    VersionNotPreserved();
    if !flags.dryRun {
      if p in Paths(bundle) {
        var k := BundledIndex(bundle, p);
        AfterBundled(tree, bundle, kit, flags, hash, k);
      } else {
        AfterElsewhere(tree, bundle, kit, flags, hash, p);
      }
    }
  }

  lemma VersionNotPreserved()
    ensures !IsPreserved(VERSION_PATH)
  {
    forall i | 0 <= i < |PRESERVE_RELATIVE_PATHS|
      ensures !(PRESERVE_RELATIVE_PATHS[i] <= VERSION_PATH)
    {
      assert PRESERVE_RELATIVE_PATHS[i][1][0] != VERSION_PATH[1][0] || |PRESERVE_RELATIVE_PATHS[i][1]| != 7;
    }
  }

  datatype Run = Run(bundle: seq<File>, kit: string, flags: Flags)

  function AfterAll(tree: Tree, runs: seq<Run>, hash: Hash): Tree
    decreases |runs|
  {
    if runs == [] then tree
    else AfterAll(After(tree, runs[0].bundle, runs[0].kit, runs[0].flags, hash), runs[1..], hash)
  }

  lemma {:induction false} PreservedUntouchedAlways(tree: Tree, runs: seq<Run>, hash: Hash, p: Path)
    requires IsPreserved(p) && p in tree && forall r :: r in runs ==> Distinct(r.bundle)
    ensures p in AfterAll(tree, runs, hash) && AfterAll(tree, runs, hash)[p] == tree[p]
    decreases |runs|
  {
    if runs != [] {
      PreservedUntouched(tree, runs[0].bundle, runs[0].kit, runs[0].flags, hash, p);
      PreservedUntouchedAlways(After(tree, runs[0].bundle, runs[0].kit, runs[0].flags, hash), runs[1..], hash, p);
    }
  }

  // ----- which paths that is

  /** The user's data: everything below ai-workflow/memory, the workflow index and the README. */
  predicate UserData(p: Path)
  {
    || ["ai-workflow", "memory"] <= p
    || ["ai-workflow", "WORKFLOW_INDEX.md"] <= p
    || ["ai-workflow", "README.md"] <= p
  }

  lemma PreservedIff(p: Path)
    ensures IsPreserved(p) <==> UserData(p)
  {
    var all := PRESERVE_RELATIVE_PATHS;
    assert all[0] == ["ai-workflow", "memory"] && all[1] == ["ai-workflow", "memory", "active"];
    assert all[2] == ["ai-workflow", "WORKFLOW_INDEX.md"] && all[3] == ["ai-workflow", "README.md"];
    if all[1] <= p { assert all[0] == all[1][..2]; }
    if UserData(p) {
      assert all[0] <= p || all[2] <= p || all[3] <= p;
    }
  }

  /** Existing user data survives every sequence of runs, whatever their bundles and options. */
  lemma UserDataSurvives(tree: Tree, runs: seq<Run>, hash: Hash, p: Path)
    requires p in tree && forall r :: r in runs ==> Distinct(r.bundle)
    requires || ["ai-workflow", "memory"] <= p || ["ai-workflow", "WORKFLOW_INDEX.md"] <= p
             || ["ai-workflow", "README.md"] <= p
    ensures p in AfterAll(tree, runs, hash) && AfterAll(tree, runs, hash)[p] == tree[p]
  {
    PreservedIff(p);
    PreservedUntouchedAlways(tree, runs, hash, p);
  }

  /** And nothing else is held back: a forced real run, unless it takes the short-circuit, leaves every
      other bundled path as the bundle has it. */
  lemma OthersAreOverwritten(tree: Tree, bundle: seq<File>, kit: string, flags: Flags, hash: Hash, k: nat)
    requires Distinct(bundle) && k < |bundle| && !flags.dryRun && flags.force && !ShortCircuit(tree, kit)
    requires var p := bundle[k].path;
             && p != ["ai-workflow", "VERSION"]
             && !(["ai-workflow", "memory"] <= p) && !(["ai-workflow", "WORKFLOW_INDEX.md"] <= p)
             && !(["ai-workflow", "README.md"] <= p)
    ensures var after := After(tree, bundle, kit, flags, hash);
            bundle[k].path in after && after[bundle[k].path] == bundle[k].content
  {
    PreservedIff(bundle[k].path);
    AfterBundled(tree, bundle, kit, flags, hash, k);
  }

  /** A path disappears exactly in a confirmed real cleanup, if it is below ai-workflow/, not in the
      bundle, and not user data; the VERSION file then holds the kit's version. */
  lemma RemovedIff(tree: Tree, bundle: seq<File>, kit: string, flags: Flags, hash: Hash, p: Path)
    requires Distinct(bundle) && p in tree && p != ["ai-workflow", "VERSION"]
    ensures p !in After(tree, bundle, kit, flags, hash) <==>
              && !flags.dryRun && flags.forceCleanup && flags.confirmed
              && ["ai-workflow"] <= p && (forall f :: f in bundle ==> f.path != p)
              && !(["ai-workflow", "memory"] <= p) && !(["ai-workflow", "WORKFLOW_INDEX.md"] <= p)
              && !(["ai-workflow", "README.md"] <= p)
    ensures !flags.dryRun ==>
              var after := After(tree, bundle, kit, flags, hash);
              ["ai-workflow", "VERSION"] in after && after[["ai-workflow", "VERSION"]] == kit
  {
    PreservedIff(p);
    if !flags.dryRun {
      if p in Paths(bundle) {
        var k := BundledIndex(bundle, p);
        AfterBundled(tree, bundle, kit, flags, hash, k);
        assert bundle[k] in bundle;
      } else {
        AfterElsewhere(tree, bundle, kit, flags, hash, p);
        forall f | f in bundle ensures f.path != p { assert f.path in Paths(bundle); }
      }
    }
  }

  // ----- a second run

  lemma SmartSame(text: string, hash: Hash)
    ensures Smart(text, text, hash) == Ignored
  {
    if MarkerOf(text).Some? { SelfCompare(MarkerOf(text).value); }
  }

  lemma SelfCompare(v: string)
    requires IsVersion(v)
    ensures CompareMarker(v, v) == Some(0)
  {
    MarkerVersionParses(v);
  }

  /** A file whose decision was made is not written again: it was preserved, or left alone for a reason
      that still holds, or is now what the bundle holds. */
  lemma DecidedOnce(f: File, tree: Tree, force: bool, later: Tree, hash: Hash)
    requires f.path in later
    requires later[f.path] == (if Writes(ActionFor(f, tree, false, force, hash)) || f.path !in tree
                               then f.content else tree[f.path])
    ensures !Writes(ActionFor(f, later, false, false, hash))
  {
    SmartSame(UniversalNewlines(f.content), hash);
  }

  lemma {:induction false} NothingCopied(bundle: seq<File>, actions: seq<Action>, onto: Tree)
    requires |actions| == |bundle| && forall i :: 0 <= i < |actions| ==> !Writes(actions[i])
    ensures Copied(bundle, actions, onto) == onto
    ensures Bucket(bundle, actions, Create) == [] && Bucket(bundle, actions, Updated) == []
  {
    if bundle != [] { NothingCopied(bundle[..|bundle| - 1], actions[..|bundle| - 1], onto); }
  }

  /** No file of the bundle would be written by a run without force. */
  ghost predicate UpToDate(tree: Tree, bundle: seq<File>, skip: bool, hash: Hash)
  {
    forall i :: 0 <= i < |bundle| ==> !Writes(ActionFor(bundle[i], tree, skip, false, hash))
  }

  /** A VERSION file in the bundle reads like the version the kit writes. */
  ghost predicate VersionAgrees(bundle: seq<File>, kit: string)
  {
    forall i :: 0 <= i < |bundle| && bundle[i].path == VERSION_PATH ==>
      UniversalNewlines(bundle[i].content) == UniversalNewlines(kit)
  }

  lemma UpToDateAfter(tree: Tree, bundle: seq<File>, kit: string, flags: Flags, hash: Hash)
    requires Distinct(bundle) && !flags.dryRun
    requires var after := After(tree, bundle, kit, flags, hash);
             ShortCircuit(after, kit) || (!ShortCircuit(tree, kit) && VersionAgrees(bundle, kit))
    ensures var after := After(tree, bundle, kit, flags, hash); UpToDate(after, bundle, ShortCircuit(after, kit), hash)
  {
    var after := After(tree, bundle, kit, flags, hash);
    var skip := ShortCircuit(after, kit);
    VersionNotPreserved();
    forall k | 0 <= k < |bundle|
      ensures !Writes(ActionFor(bundle[k], after, skip, false, hash))
    {
      if bundle[k].path == VERSION_PATH {
        SmartSame(UniversalNewlines(kit), hash);
      } else {
        AfterBundled(tree, bundle, kit, flags, hash, k);
        if !skip { DecidedOnce(bundle[k], tree, flags.force, after, hash); }
      }
    }
  }

  lemma StaleAfter(tree: Tree, bundle: seq<File>, kit: string, flags: Flags, hash: Hash)
    requires Distinct(bundle) && !flags.dryRun && flags.forceCleanup && flags.confirmed
    ensures Stale(After(tree, bundle, kit, flags, hash), bundle) ==
              if VERSION_PATH in Paths(bundle) then {} else {VERSION_PATH}
  {
    var after := After(tree, bundle, kit, flags, hash);
    VersionNotPreserved();
    forall p | p in Stale(after, bundle) ensures p == VERSION_PATH {
      if p != VERSION_PATH { AfterElsewhere(tree, bundle, kit, flags, hash, p); }
    }
  }

  /** A run on an up-to-date tree that already holds the kit's version. */
  lemma QuietRun(tree: Tree, bundle: seq<File>, kit: string, flags: Flags, hash: Hash)
    requires UpToDate(tree, bundle, ShortCircuit(tree, kit), hash) && !flags.force
    requires VERSION_PATH in tree && tree[VERSION_PATH] == kit
    requires flags.forceCleanup && flags.confirmed ==> Stale(tree, bundle) <= {VERSION_PATH}
    ensures After(tree, bundle, kit, flags, hash) == tree
    ensures var report := ReportOf(tree, bundle, kit, flags.forceCleanup, false, hash);
            report.created == [] && report.updated == []
  {
    NothingCopied(bundle, Decisions(bundle, tree, ShortCircuit(tree, kit), false, hash), tree);
  }

  /** After a real run, forced or not, a second one with the same options but without force changes
      nothing and reports nothing created or updated: with the version short-circuit, or without it when
      the bundle's VERSION file agrees with the kit. A confirmed cleanup finds nothing more to delete,
      except a VERSION file that the bundle does not hold. */
  lemma SecondRunIsQuiet(tree: Tree, bundle: seq<File>, kit: string, flags: Flags, hash: Hash)
    requires Distinct(bundle) && !flags.dryRun
    requires var after := After(tree, bundle, kit, flags, hash);
             ShortCircuit(after, kit) || (!ShortCircuit(tree, kit) && VersionAgrees(bundle, kit))
    ensures var after := After(tree, bundle, kit, flags, hash);
            var report := ReportOf(after, bundle, kit, flags.forceCleanup, false, hash);
            && After(after, bundle, kit, flags.(force := false), hash) == after
            && report.created == [] && report.updated == []
            && (flags.forceCleanup && flags.confirmed ==>
                  report.deleted == if VERSION_PATH in Paths(bundle) then {} else {VERSION_PATH})
  {
    var after := After(tree, bundle, kit, flags, hash);
    UpToDateAfter(tree, bundle, kit, flags, hash);
    if flags.forceCleanup && flags.confirmed {
      StaleAfter(tree, bundle, kit, flags, hash);
    }
    QuietRun(after, bundle, kit, flags.(force := false), hash);
  }

  /** A version that is trimmed, nonempty and starts with at most one "v" is recognized again once it is
      written, so that the next run takes the short-circuit. */
  lemma WrittenVersionIsRecognized(tree: Tree, bundle: seq<File>, kit: string, flags: Flags, hash: Hash)
    requires !flags.dryRun && kit != "" && Trimmed(kit) && '\r' !in kit
    ensures ShortCircuit(After(tree, bundle, kit, flags, hash), kit) <==>
              !(|kit| >= 2 && kit[0] in {'v', 'V'} && kit[1] in {'v', 'V'})
  {
    UniversalNewlinesIff(kit);
    StripTrimmedIff(kit);
    BareShorter(kit[1..]);
  }

  lemma {:induction false} BareShorter(s: string)
    ensures |Bare(s)| <= |s|
    ensures s != "" && s[0] in {'v', 'V'} ==> |Bare(s)| < |s|
  {
    if s != "" && s[0] in {'v', 'V'} { BareShorter(s[1..]); }
  }

  // ----- force

  /** With force, an existing file that is not preserved is overwritten if and only if the target's
      version differs from the kit's. */
  lemma ForceOverwritesIff(tree: Tree, bundle: seq<File>, kit: string, cleanup: bool, hash: Hash, k: nat)
    requires Distinct(bundle) && k < |bundle| && bundle[k].path in tree && !IsPreserved(bundle[k].path)
    ensures bundle[k].path in ReportOf(tree, bundle, kit, cleanup, true, hash).updated <==> !ShortCircuit(tree, kit)
  {
    BucketAt(bundle, Decisions(bundle, tree, ShortCircuit(tree, kit), true, hash), Updated, k);
  }

  // ----- no downgrade

  /** The marker version of the file at `path`, if it has one. */
  function VersionAt(tree: Tree, path: Path): (v: Option<string>)
    ensures v.Some? ==> IsVersion(v.value)
  {
    if path in tree then MarkerOf(UniversalNewlines(tree[path])) else None
  }

  /** A run without force that does not delete `p`, and whose copy of `p`, if it brings one, is marked. */
  ghost predicate Carries(run: Run, p: Path)
  {
    && Distinct(run.bundle) && !run.flags.force && p != VERSION_PATH
    && (forall f :: f in run.bundle && f.path == p ==> MarkerOf(UniversalNewlines(f.content)).Some?)
    && (run.flags.forceCleanup && run.flags.confirmed && ["ai-workflow"] <= p && !IsPreserved(p) ==>
          p in Paths(run.bundle))
  }

  lemma UpdateNotBelow(src: string, dst: string, hash: Hash)
    requires MarkerOf(src).Some? && MarkerOf(dst).Some? && Smart(src, dst, hash) == Updated
    ensures AtMost(MarkerOf(dst).value, MarkerOf(src).value)
  {
    CompareIsTotal(MarkerOf(src).value, MarkerOf(dst).value);
  }

  lemma RankStep(tree: Tree, run: Run, hash: Hash, p: Path)
    requires Carries(run, p) && VersionAt(tree, p).Some?
    ensures var after := After(tree, run.bundle, run.kit, run.flags, hash);
            VersionAt(after, p).Some? && AtMost(VersionAt(tree, p).value, VersionAt(after, p).value)
  {
    SelfCompare(VersionAt(tree, p).value);
    if !run.flags.dryRun {
      if p in Paths(run.bundle) {
        var k := BundledIndex(run.bundle, p);
        var f := run.bundle[k];
        AfterBundled(tree, run.bundle, run.kit, run.flags, hash, k);
        assert f in run.bundle;
        if Writes(ActionFor(f, tree, ShortCircuit(tree, run.kit), false, hash)) {
          UpdateNotBelow(UniversalNewlines(f.content), UniversalNewlines(tree[p]), hash);
        }
      } else {
        AfterElsewhere(tree, run.bundle, run.kit, run.flags, hash, p);
      }
    }
  }

  /** Over any sequence of upgrades without force, a file whose copies all carry markers never drops in
      version rank. */
  lemma {:induction false} RankNeverDrops(tree: Tree, runs: seq<Run>, hash: Hash, p: Path)
    requires VersionAt(tree, p).Some? && forall r :: r in runs ==> Carries(r, p)
    ensures VersionAt(AfterAll(tree, runs, hash), p).Some?
    ensures AtMost(VersionAt(tree, p).value, VersionAt(AfterAll(tree, runs, hash), p).value)
    decreases |runs|
  {
    if runs == [] {
      SelfCompare(VersionAt(tree, p).value);
    } else {
      var next := After(tree, runs[0].bundle, runs[0].kit, runs[0].flags, hash);
      RankStep(tree, runs[0], hash, p);
      RankNeverDrops(next, runs[1..], hash, p);
      CompareIsTransitive(VersionAt(tree, p).value, VersionAt(next, p).value,
                          VersionAt(AfterAll(next, runs[1..], hash), p).value);
    }
  }

  lemma DecidedByMarkers(src: string, dst: string, hash: Hash, x: string, y: string)
    requires MarkerOf(src) == Some(x) && MarkerOf(dst) == Some(y) && hash(src) != hash(dst)
    ensures DecideAction(Some(src), Some(dst), false, false, hash)
         == if CompareMarker(y, x) == Some(1) then Ignored else Updated
  {
    MarkerVersionParses(x);
    MarkerVersionParses(y);
    CompareIsTotal(x, y);
  }

  /** e.f.g is the greater triple of numbers. */
  predicate GreaterThree(a: string, b: string, c: string, e: string, f: string, g: string)
    requires Number(a) && Number(b) && Number(c) && Number(e) && Number(f) && Number(g)
  {
    var (major, minor, patch) := (ValueOf(e) - ValueOf(a), ValueOf(f) - ValueOf(b), ValueOf(g) - ValueOf(c));
    major > 0 || (major == 0 && (minor > 0 || (minor == 0 && patch > 0)))
  }

  /** Between dotted versions, without force: a copy of which the first of three numbers that differs is
      greater stays; otherwise, also when all three are equal, the bundle's content arrives. */
  lemma DottedUpgrade(src: string, dst: string, hash: Hash, a: string, b: string, c: string, d: string,
                      e: string, f: string, g: string, h: string)
    requires Number(a) && Number(b) && Number(c) && Number(d) && Number(e) && Number(f) && Number(g) && Number(h)
    requires MarkerOf(src) == Some(Dotted(a, b, c, d)) && MarkerOf(dst) == Some(Dotted(e, f, g, h))
    requires hash(src) != hash(dst)
    ensures DecideAction(Some(src), Some(dst), false, false, hash)
         == if GreaterThree(a, b, c, e, f, g) then Ignored else Updated
  {
    var x, y := Dotted(a, b, c, d), Dotted(e, f, g, h);
    var newer := GreaterThree(a, b, c, e, f, g);
    assert CompareMarker(y, x) == Some(1) <==> newer by { DottedOrder(e, f, g, h, a, b, c, d); }
    assert DecideAction(Some(src), Some(dst), false, false, hash) == if newer then Ignored else Updated by {
      DecidedByMarkers(src, dst, hash, x, y);
    }
  }

  /** Rank is all that is protected: a file is replaced by an older hotfix of the same release. */
  lemma HotfixDowngradeOverwrites(src: string, dst: string, a: string, b: string, c: string, d: string, e: string,
                                  hash: Hash)
    requires Number(a) && Number(b) && Number(c) && Number(d) && Number(e)
    requires MarkerOf(src) == Some(Dotted(a, b, c, d)) && MarkerOf(dst) == Some(Dotted(a, b, c, e))
    requires hash(src) != hash(dst)
    ensures DecideAction(Some(src), Some(dst), false, false, hash) == Updated
  {
    HotfixesTie(a, b, c, d, e);
  }
}
