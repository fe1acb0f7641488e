/** The sidecar file lock around load-lookup-update-save, as a machine over the steps of any number of
    processes. A lock belongs to an inode, not to a path: unlinking the lock file makes a new inode. */
module CacheLock {
  import opened Options
  import opened CacheModel
  import opened CacheStore
  import CacheHistory

  /** A file that was opened for writing and not finished loads as empty, like a missing one. */
  datatype Content = Absent | Torn | Data(entries: seq<Entry>)

  function Entries(c: Content): seq<Entry> { if c.Data? then c.entries else [] }

  /** Where a process stands. `Waiting`: at least one attempt to lock has failed. `lock` is the inode it has
      locked; without it the process is past `__enter__` all the same: after the timeout, or when it cannot
      open the lock file, the program warns and goes on. */
  datatype Pc =
    | Start
    | Cleaned
    | Opened(inode: nat)
    | Waiting(inode: nat)
    | Entered(lock: Option<nat>)
    | Loaded(lock: Option<nat>, dict: seq<Entry>)
    | Truncated(lock: Option<nat>, dict: seq<Entry>)
    | Saved(lock: Option<nat>)
    | Done
    | Dead

  datatype Effect = Applied(pid: nat) | Wiped

  /** `log` records, for the proofs, every completed save and every save cut short by a crash. */
  datatype World = World(lockFile: Option<nat>, nextInode: nat, holder: map<nat, nat>, file: Content,
                         pcs: seq<Pc>, log: seq<Effect>)

  /** `TryLock` is one attempt, the first or a later one; `TimeOut` may come at any moment after a failed
      attempt, also when the lock has been released since. */
  datatype Action =
    | KeepLockFile | UnlinkStale | OpenLock | OpenFails | TryLock | TimeOut
    | LoadCache | OpenForWrite | WriteOut | Release | Crash

  /** `n` processes, whether an unlocked lock file is there from before, and what each process does to the
      cache between load and save: `refresh(p, dict)` is the dict it saves, `written(p, dict)` the file that
      saving it leaves. The lock does not depend on either. */
  datatype Setup = Setup(n: nat, leftover: bool, initial: Content, refresh: (nat, seq<Entry>) -> seq<Entry>,
                         written: (nat, seq<Entry>) -> seq<Entry>)

  function Lock(pc: Pc): Option<nat>
  {
    match pc
    case Entered(l) => l
    case Loaded(l, _) => l
    case Truncated(l, _) => l
    case Saved(l) => l
    case _ => None
  }

  predicate Trying(pc: Pc) { pc.Opened? || pc.Waiting? }

  predicate Critical(pc: Pc) { pc.Entered? || pc.Loaded? || pc.Truncated? || pc.Saved? }

  function Initial(z: Setup): World
  {
    World(if z.leftover then Some(0) else None, if z.leftover then 1 else 0, map[], z.initial,
          seq(z.n, _ => Start), [])
  }

  function Move(w: World, p: nat, pc: Pc): World
    requires p < |w.pcs|
  {
    w.(pcs := w.pcs[p := pc])
  }

  function Drop(holder: map<nat, nat>, l: Option<nat>): map<nat, nat>
  {
    if l.Some? then holder - {l.value} else holder
  }

  /** One step of process `p`; an action that is not enabled changes nothing. */
  function Step(w: World, p: nat, a: Action, z: Setup): (w': World)
    requires |w.pcs| == z.n
    ensures |w'.pcs| == |w.pcs|
  {
    if p >= |w.pcs| then w
    else
      var pc := w.pcs[p];
      match a
      case KeepLockFile => if pc.Start? then Move(w, p, Cleaned) else w
      case UnlinkStale => if pc.Start? then Move(w, p, Cleaned).(lockFile := None) else w
      case OpenLock =>
        if !pc.Cleaned? then w
        else if w.lockFile.Some? then Move(w, p, Opened(w.lockFile.value))
        else Move(w, p, Opened(w.nextInode)).(lockFile := Some(w.nextInode), nextInode := w.nextInode + 1)
      case OpenFails => if pc.Cleaned? then Move(w, p, Entered(None)) else w
      case TryLock =>
        if !Trying(pc) then w
        else if pc.inode in w.holder then Move(w, p, Waiting(pc.inode))
        else Move(w, p, Entered(Some(pc.inode))).(holder := w.holder[pc.inode := p])
      case TimeOut => if pc.Waiting? then Move(w, p, Entered(None)) else w
      case LoadCache => if pc.Entered? then Move(w, p, Loaded(pc.lock, z.refresh(p, Entries(w.file)))) else w
      case OpenForWrite => if pc.Loaded? then Move(w, p, Truncated(pc.lock, pc.dict)).(file := Torn) else w
      case WriteOut =>
        if !pc.Truncated? then w
        else
          Move(w, p, Saved(pc.lock)).(file := Data(z.written(p, pc.dict)), log := w.log + [Applied(p)])
      case Release => if pc.Saved? then Move(w, p, Done).(holder := Drop(w.holder, pc.lock)) else w
      case Crash =>
        Move(w, p, Dead).(holder := Drop(w.holder, Lock(pc)), log := if pc.Truncated? then w.log + [Wiped] else w.log)
  }

  datatype Event = Event(pid: nat, action: Action)

  function Exec(w: World, run: seq<Event>, z: Setup): (w': World)
    requires |w.pcs| == z.n
    ensures |w'.pcs| == |w.pcs|
    decreases |run|
  {
    if run == [] then w else Exec(Step(w, run[0].pid, run[0].action, z), run[1..], z)
  }

  // ----- one holder per inode, in every run

  ghost predicate HoldersAgree(w: World)
  {
    && (forall i :: i in w.holder ==> w.holder[i] < |w.pcs| && Lock(w.pcs[w.holder[i]]) == Some(i))
    && (forall p :: 0 <= p < |w.pcs| && Lock(w.pcs[p]).Some? ==>
          Lock(w.pcs[p]).value in w.holder && w.holder[Lock(w.pcs[p]).value] == p)
  }

  /** Any step moves one process and at most adds or removes its own lock. */
  lemma StepHoldersAgree(w: World, p: nat, a: Action, z: Setup)
    requires |w.pcs| == z.n && HoldersAgree(w)
    ensures HoldersAgree(Step(w, p, a, z))
  {
    var w' := Step(w, p, a, z);
    if p < |w.pcs| && w' != w {
      if Critical(w'.pcs[p]) && a.TryLock? {
        LockAgrees(w, w', p);
      } else {
        UnlockAgrees(w, w', p);
      }
    }
  }

  lemma LockAgrees(w: World, w': World, p: nat)
    requires HoldersAgree(w) && p < |w.pcs| && |w'.pcs| == |w.pcs|
    requires forall q :: 0 <= q < |w.pcs| && q != p ==> w'.pcs[q] == w.pcs[q]
    requires Lock(w.pcs[p]) == None && Lock(w'.pcs[p]).Some? && Lock(w'.pcs[p]).value !in w.holder
    requires w'.holder == w.holder[Lock(w'.pcs[p]).value := p]
    ensures HoldersAgree(w')
  {
  }

  lemma UnlockAgrees(w: World, w': World, p: nat)
    requires HoldersAgree(w) && p < |w.pcs| && |w'.pcs| == |w.pcs|
    requires forall q :: 0 <= q < |w.pcs| && q != p ==> w'.pcs[q] == w.pcs[q]
    requires || (Lock(w'.pcs[p]) == Lock(w.pcs[p]) && w'.holder == w.holder)
             || (Lock(w'.pcs[p]) == None && w'.holder == Drop(w.holder, Lock(w.pcs[p])))
    ensures HoldersAgree(w')
  {
  }

  lemma {:induction false} ExecHoldersAgree(w: World, run: seq<Event>, z: Setup)
    requires |w.pcs| == z.n && HoldersAgree(w)
    ensures HoldersAgree(Exec(w, run, z))
    decreases |run|
  {
    if run != [] {
      StepHoldersAgree(w, run[0].pid, run[0].action, z);
      ExecHoldersAgree(Step(w, run[0].pid, run[0].action, z), run[1..], z);
    }
  }

  /** In every interleaving, crashes, timeouts and stale unlinks included, no two processes have the
      same inode locked. */
  lemma OneHolderPerInode(run: seq<Event>, z: Setup, p: nat, q: nat)
    requires p < q < z.n
    ensures var w := Exec(Initial(z), run, z);
            Lock(w.pcs[p]).Some? ==> Lock(w.pcs[p]) != Lock(w.pcs[q])
  {
    ExecHoldersAgree(Initial(z), run, z);
  }

  // ----- one process inside at every moment

  ghost predicate OneInside(w: World)
  {
    forall p, q :: 0 <= p < |w.pcs| && 0 <= q < |w.pcs| && Critical(w.pcs[p]) && Critical(w.pcs[q]) ==> p == q
  }

  /** The sections between lock and release exclude each other at every moment of the run. */
  ghost predicate AlwaysOneInside(w: World, run: seq<Event>, z: Setup)
    requires |w.pcs| == z.n
  {
    forall k :: 0 <= k <= |run| ==> OneInside(Exec(w, run[..k], z))
  }

  lemma AlwaysOneInsideNext(w: World, run: seq<Event>, z: Setup)
    requires |w.pcs| == z.n
    ensures AlwaysOneInside(w, run, z) <==>
            OneInside(w) && (run == [] || AlwaysOneInside(Step(w, run[0].pid, run[0].action, z), run[1..], z))
  {
    assert run[..0] == [];
    if run != [] {
      var w' := Step(w, run[0].pid, run[0].action, z);
      forall k | 0 < k <= |run| ensures Exec(w, run[..k], z) == Exec(w', run[1..][..k - 1], z) {
        assert run[..k][1..] == run[1..][..k - 1];
      }
      forall k | 0 <= k <= |run[1..]| ensures Exec(w, run[..k + 1], z) == Exec(w', run[1..][..k], z) {}
    }
  }

  /** Process `e.pid` goes in without a lock: its patience is over, or it cannot open the lock file. */
  predicate EntersUnlocked(w: World, e: Event)
  {
    && e.pid < |w.pcs|
    && ((e.action.TimeOut? && w.pcs[e.pid].Waiting?) || (e.action.OpenFails? && w.pcs[e.pid].Cleaned?))
  }

  predicate Enters(w: World, e: Event)
  {
    || EntersUnlocked(w, e)
    || (e.pid < |w.pcs| && e.action.TryLock? && Trying(w.pcs[e.pid]) && w.pcs[e.pid].inode !in w.holder)
  }

  /** Somebody inside never got the lock. */
  ghost predicate UnlockedInside(w: World)
  {
    exists p :: 0 <= p < |w.pcs| && Critical(w.pcs[p]) && Lock(w.pcs[p]).None?
  }

  /** A process goes in while an inode is locked, or while somebody is inside without a lock. */
  ghost predicate Intrudes(w: World, e: Event)
  {
    Enters(w, e) && (w.holder != map[] || UnlockedInside(w))
  }

  ghost predicate NoIntrusion(w: World, run: seq<Event>, z: Setup)
    requires |w.pcs| == z.n
    decreases |run|
  {
    run == [] || (!Intrudes(w, run[0]) && NoIntrusion(Step(w, run[0].pid, run[0].action, z), run[1..], z))
  }

  lemma StepIntrudes(w: World, e: Event, z: Setup)
    requires |w.pcs| == z.n && HoldersAgree(w) && Intrudes(w, e)
    ensures !OneInside(Step(w, e.pid, e.action, z))
  {
    var w' := Step(w, e.pid, e.action, z);
    var h: nat;
    if w.holder != map[] {
      var i :| i in w.holder;
      h := w.holder[i];
    } else {
      h :| h < |w.pcs| && Critical(w.pcs[h]) && Lock(w.pcs[h]).None?;
    }
    assert w'.pcs[h] == w.pcs[h] && Critical(w'.pcs[h]) && Critical(w'.pcs[e.pid]) && h != e.pid;
  }

  lemma StepKeepsOneInside(w: World, e: Event, z: Setup)
    requires |w.pcs| == z.n && HoldersAgree(w) && OneInside(w) && !Intrudes(w, e)
    ensures OneInside(Step(w, e.pid, e.action, z))
  {
    var w' := Step(w, e.pid, e.action, z);
    if e.pid < |w.pcs| && !Critical(w.pcs[e.pid]) && Critical(w'.pcs[e.pid]) {
      assert Enters(w, e);
      assert forall p :: 0 <= p < |w.pcs| ==> !Critical(w.pcs[p]);
    }
  }

  /** Exclusion holds at every moment of a run, stale unlinks, timeouts and crashes included, exactly
      when nobody goes in while an inode is locked or somebody is inside without a lock. */
  lemma ExclusiveIffNoIntrusion(run: seq<Event>, z: Setup)
    ensures AlwaysOneInside(Initial(z), run, z) <==> NoIntrusion(Initial(z), run, z)
  {
    ExclusiveFrom(Initial(z), run, z);
  }

  lemma {:induction false} ExclusiveFrom(w: World, run: seq<Event>, z: Setup)
    requires |w.pcs| == z.n && HoldersAgree(w) && OneInside(w)
    ensures AlwaysOneInside(w, run, z) <==> NoIntrusion(w, run, z)
    decreases |run|
  {
    AlwaysOneInsideNext(w, run, z);
    if run != [] {
      var w' := Step(w, run[0].pid, run[0].action, z);
      if Intrudes(w, run[0]) {
        StepIntrudes(w, run[0], z);
        AlwaysOneInsideNext(w', run[1..], z);
      } else {
        StepHoldersAgree(w, run[0].pid, run[0].action, z);
        StepKeepsOneInside(w, run[0], z);
        ExclusiveFrom(w', run[1..], z);
      }
    }
  }

  // ----- on one inode only those without a lock intrude

  /** Everybody uses the inode that the lock file has now. */
  ghost predicate OneInode(w: World)
  {
    forall p :: 0 <= p < |w.pcs| ==>
      && (Trying(w.pcs[p]) ==> w.lockFile == Some(w.pcs[p].inode))
      && (Lock(w.pcs[p]).Some? ==> w.lockFile == Lock(w.pcs[p]))
  }

  /** Nobody has locked or is about to lock the inode of the lock file. */
  ghost predicate NobodyAtLock(w: World)
  {
    forall p :: 0 <= p < |w.pcs| ==> !Trying(w.pcs[p]) && Lock(w.pcs[p]).None?
  }

  /** `UnlinkStale` takes away a lock file that is in use. */
  ghost predicate UnlinksUsed(w: World, e: Event)
  {
    e.action.UnlinkStale? && !NobodyAtLock(w)
  }

  /** Lock files are only unlinked while nobody uses them: the recovery that the unlinking is for. */
  ghost predicate UnlinksOnlyStale(w: World, run: seq<Event>, z: Setup)
    requires |w.pcs| == z.n
    decreases |run|
  {
    run == [] || (!UnlinksUsed(w, run[0]) && UnlinksOnlyStale(Step(w, run[0].pid, run[0].action, z), run[1..], z))
  }

  lemma StepOneInode(w: World, e: Event, z: Setup)
    requires |w.pcs| == z.n && OneInode(w) && !UnlinksUsed(w, e)
    ensures OneInode(Step(w, e.pid, e.action, z))
  {
  }

  /** A process goes in without a lock while the inode is locked, or anyhow while somebody is inside
      without a lock. */
  ghost predicate Meets(w: World, e: Event)
  {
    (EntersUnlocked(w, e) && w.holder != map[]) || (Enters(w, e) && UnlockedInside(w))
  }

  ghost predicate NoMeeting(w: World, run: seq<Event>, z: Setup)
    requires |w.pcs| == z.n
    decreases |run|
  {
    run == [] || (!Meets(w, run[0]) && NoMeeting(Step(w, run[0].pid, run[0].action, z), run[1..], z))
  }

  /** On one inode there is no second lock to take. */
  lemma SecondLockIsTheSame(w: World, p: nat)
    requires HoldersAgree(w) && OneInode(w) && p < |w.pcs| && Trying(w.pcs[p]) && w.holder != map[]
    ensures w.pcs[p].inode in w.holder
  {
    var i :| i in w.holder;
    assert Lock(w.pcs[w.holder[i]]) == Some(i);
  }

  /** As long as no lock file in use is unlinked, exclusion fails only through processes that never got
      the lock: it holds exactly when none of them is inside together with another process. */
  lemma ExclusiveIffNoMeeting(run: seq<Event>, z: Setup)
    requires UnlinksOnlyStale(Initial(z), run, z)
    ensures AlwaysOneInside(Initial(z), run, z) <==> NoMeeting(Initial(z), run, z)
  {
    ExclusiveIffNoIntrusion(run, z);
    MeetingsAreTheIntrusions(Initial(z), run, z);
  }

  lemma {:induction false} MeetingsAreTheIntrusions(w: World, run: seq<Event>, z: Setup)
    requires |w.pcs| == z.n && HoldersAgree(w) && OneInode(w) && UnlinksOnlyStale(w, run, z)
    ensures NoIntrusion(w, run, z) <==> NoMeeting(w, run, z)
    decreases |run|
  {
    if run != [] {
      var e := run[0];
      assert Intrudes(w, e) <==> Meets(w, e) by {
        if Intrudes(w, e) && !EntersUnlocked(w, e) && w.holder != map[] { SecondLockIsTheSame(w, e.pid); }
      }
      StepHoldersAgree(w, e.pid, e.action, z);
      StepOneInode(w, e, z);
      MeetingsAreTheIntrusions(Step(w, e.pid, e.action, z), run[1..], z);
    }
  }

  // ----- runs in which everybody gets the lock

  /** No timeout, no lock file that cannot be opened. */
  ghost predicate Patient(run: seq<Event>)
  {
    forall i :: 0 <= i < |run| ==> run[i].action != TimeOut && run[i].action != OpenFails
  }

  ghost predicate Clean(run: seq<Event>)
  {
    Patient(run) && forall i :: 0 <= i < |run| ==> run[i].action != UnlinkStale
  }

  /** If nobody goes in without a lock and no lock file in use is unlinked, the sections exclude each
      other; stale lock files may be unlinked and processes may crash. */
  lemma RecoveryExcludes(run: seq<Event>, z: Setup)
    requires Patient(run) && UnlinksOnlyStale(Initial(z), run, z)
    ensures AlwaysOneInside(Initial(z), run, z)
  {
    ExclusiveIffNoMeeting(run, z);
    PatientNeverMeets(Initial(z), run, z);
  }

  lemma {:induction false} PatientNeverMeets(w: World, run: seq<Event>, z: Setup)
    requires |w.pcs| == z.n && Patient(run) && !UnlockedInside(w)
    ensures NoMeeting(w, run, z)
    decreases |run|
  {
    if run != [] {
      var w' := Step(w, run[0].pid, run[0].action, z);
      assert run[0].action != TimeOut && run[0].action != OpenFails;
      assert !UnlockedInside(w');
      PatientNeverMeets(w', run[1..], z);
    }
  }

  /** In a clean run the sections between lock and release exclude each other. */
  lemma CleanRunsExclude(run: seq<Event>, z: Setup, p: nat, q: nat)
    requires Clean(run) && p < z.n && q < z.n
    ensures AlwaysOneInside(Initial(z), run, z)
    ensures var w := Exec(Initial(z), run, z);
            Critical(w.pcs[p]) && Critical(w.pcs[q]) ==> p == q
  {
    NoUnlinkIsOnlyStale(Initial(z), run, z);
    RecoveryExcludes(run, z);
    assert run[..|run|] == run;
  }

  lemma {:induction false} NoUnlinkIsOnlyStale(w: World, run: seq<Event>, z: Setup)
    requires |w.pcs| == z.n && forall i :: 0 <= i < |run| ==> run[i].action != UnlinkStale
    ensures UnlinksOnlyStale(w, run, z)
    decreases |run|
  {
    if run != [] { NoUnlinkIsOnlyStale(Step(w, run[0].pid, run[0].action, z), run[1..], z); }
  }

  // ----- such runs are serial

  function Replay(log: seq<Effect>, z: Setup): Content
  {
    if log == [] then z.initial
    else
      match log[|log| - 1]
      case Wiped => Torn
      case Applied(p) => Data(z.written(p, z.refresh(p, Entries(Replay(log[..|log| - 1], z)))))
  }

  ghost predicate MidWrite(w: World) { exists p :: 0 <= p < |w.pcs| && w.pcs[p].Truncated? }

  /** A process that has loaded holds what the serial history so far would give it. */
  ghost predicate LoadedSerial(w: World, z: Setup)
    requires |w.pcs| == z.n
  {
    forall p :: 0 <= p < |w.pcs| && (w.pcs[p].Loaded? || w.pcs[p].Truncated?) ==>
      w.pcs[p].dict == z.refresh(p, Entries(Replay(w.log, z)))
  }

  ghost predicate Serial(w: World, z: Setup)
    requires |w.pcs| == z.n
  {
    && OneInside(w)
    && LoadedSerial(w, z)
    && w.file == (if MidWrite(w) then Torn else Replay(w.log, z))
  }

  lemma StepSerial(w: World, p: nat, a: Action, z: Setup)
    requires |w.pcs| == z.n && Serial(w, z) && OneInside(Step(w, p, a, z))
    ensures Serial(Step(w, p, a, z), z)
  {
    var w' := Step(w, p, a, z);
    if p < |w.pcs| {
      match a {
        case LoadCache => LoadStep(w, p, z);
        case OpenForWrite => TruncateStep(w, p, z);
        case WriteOut => WriteStep(w, p, z);
        case Crash => CrashStep(w, p, z);
        case _ => QuietStep(w, w', p, z);
      }
    }
  }

  lemma QuietStep(w: World, w': World, p: nat, z: Setup)
    requires |w.pcs| == z.n && p < |w.pcs| && LoadedSerial(w, z)
    requires w.file == (if MidWrite(w) then Torn else Replay(w.log, z))
    requires |w'.pcs| == |w.pcs| && w'.file == w.file && w'.log == w.log
    requires w' == w || (!w.pcs[p].Loaded? && !w.pcs[p].Truncated? && !w'.pcs[p].Loaded? && !w'.pcs[p].Truncated?)
    requires forall q :: 0 <= q < |w.pcs| && q != p ==> w'.pcs[q] == w.pcs[q]
    ensures LoadedSerial(w', z)
    ensures w'.file == (if MidWrite(w') then Torn else Replay(w'.log, z))
  {
    SameMidWrite(w, w');
  }

  lemma LoadStep(w: World, p: nat, z: Setup)
    requires |w.pcs| == z.n && p < |w.pcs| && Serial(w, z)
    ensures LoadedSerial(Step(w, p, LoadCache, z), z)
    ensures var w' := Step(w, p, LoadCache, z); w'.file == (if MidWrite(w') then Torn else Replay(w'.log, z))
  {
    var w' := Step(w, p, LoadCache, z);
    if w' != w {
      assert !MidWrite(w);
      assert forall q :: 0 <= q < |w'.pcs| ==> !w'.pcs[q].Truncated?;
    }
  }

  lemma TruncateStep(w: World, p: nat, z: Setup)
    requires |w.pcs| == z.n && p < |w.pcs| && Serial(w, z)
    ensures LoadedSerial(Step(w, p, OpenForWrite, z), z)
    ensures var w' := Step(w, p, OpenForWrite, z); w'.file == (if MidWrite(w') then Torn else Replay(w'.log, z))
  {
    var w' := Step(w, p, OpenForWrite, z);
    if w' != w {
      assert w'.pcs[p].Truncated?;
    }
  }

  lemma WriteStep(w: World, p: nat, z: Setup)
    requires |w.pcs| == z.n && p < |w.pcs| && Serial(w, z)
    ensures LoadedSerial(Step(w, p, WriteOut, z), z)
    ensures var w' := Step(w, p, WriteOut, z); w'.file == (if MidWrite(w') then Torn else Replay(w'.log, z))
  {
    var w' := Step(w, p, WriteOut, z);
    if w' != w {
      assert w'.log[..|w'.log| - 1] == w.log;
      assert forall q :: 0 <= q < |w'.pcs| ==> !w'.pcs[q].Truncated?;
    }
  }

  lemma CrashStep(w: World, p: nat, z: Setup)
    requires |w.pcs| == z.n && p < |w.pcs| && Serial(w, z)
    ensures LoadedSerial(Step(w, p, Crash, z), z)
    ensures var w' := Step(w, p, Crash, z); w'.file == (if MidWrite(w') then Torn else Replay(w'.log, z))
  {
    var w' := Step(w, p, Crash, z);
    if w.pcs[p].Truncated? {
      assert w'.log[..|w'.log| - 1] == w.log;
      assert forall q :: 0 <= q < |w'.pcs| ==> !w'.pcs[q].Truncated?;
    } else {
      assert forall q :: 0 <= q < |w'.pcs| ==> (w'.pcs[q].Truncated? <==> w.pcs[q].Truncated?);
      assert MidWrite(w') <==> MidWrite(w) by { SameMidWrite(w, w'); }
    }
  }

  lemma SameMidWrite(w: World, w': World)
    requires |w'.pcs| == |w.pcs| && forall q :: 0 <= q < |w'.pcs| ==> (w'.pcs[q].Truncated? <==> w.pcs[q].Truncated?)
    ensures MidWrite(w') <==> MidWrite(w)
  {
    if MidWrite(w) {
      var q :| 0 <= q < |w.pcs| && w.pcs[q].Truncated?;
      assert w'.pcs[q].Truncated?;
    }
  }

  lemma {:induction false} ExecSerial(w: World, run: seq<Event>, z: Setup)
    requires |w.pcs| == z.n && Serial(w, z) && AlwaysOneInside(w, run, z)
    ensures Serial(Exec(w, run, z), z)
    decreases |run|
  {
    if run != [] {
      var w' := Step(w, run[0].pid, run[0].action, z);
      AlwaysOneInsideNext(w, run, z);
      AlwaysOneInsideNext(w', run[1..], z);
      StepSerial(w, run[0].pid, run[0].action, z);
      ExecSerial(w', run[1..], z);
    }
  }

  /** After a run in which the sections exclude each other, the cache file is what the completed requests
      leave when run one after another in the order of their saves; a crash inside a save resets it to
      empty. Unlinks and timeouts that let nobody meet do no harm. */
  lemma ExclusiveRunsAreSerial(run: seq<Event>, z: Setup)
    requires AlwaysOneInside(Initial(z), run, z) && !MidWrite(Exec(Initial(z), run, z))
    ensures var w := Exec(Initial(z), run, z); w.file == Replay(w.log, z)
  {
    ExecSerial(Initial(z), run, z);
  }

  // ----- what the serial order keeps

  /** Every finished request is in the log exactly once, in any run. */
  ghost predicate LogTrue(w: World)
  {
    && (forall p :: 0 <= p < |w.pcs| && (w.pcs[p].Saved? || w.pcs[p].Done?) ==> Applied(p) in w.log)
    && (forall i :: 0 <= i < |w.log| && w.log[i].Applied? ==>
          w.log[i].pid < |w.pcs|
          && (w.pcs[w.log[i].pid].Saved? || w.pcs[w.log[i].pid].Done? || w.pcs[w.log[i].pid].Dead?))
    && (forall i, j :: 0 <= i < j < |w.log| && w.log[i].Applied? ==> w.log[i] != w.log[j])
  }

  predicate Wrote(pc: Pc) { pc.Saved? || pc.Done? }

  /** Process `p` moves without writing. */
  lemma LogKept(w: World, w': World, p: nat)
    requires LogTrue(w) && p < |w.pcs| && |w'.pcs| == |w.pcs| && w'.log == w.log
    requires forall q :: 0 <= q < |w.pcs| && q != p ==> w'.pcs[q] == w.pcs[q]
    requires Wrote(w'.pcs[p]) ==> Wrote(w.pcs[p])
    requires Wrote(w.pcs[p]) || w.pcs[p].Dead? ==> Wrote(w'.pcs[p]) || w'.pcs[p].Dead?
    ensures LogTrue(w')
  {
  }

  /** Process `p`, which had not written yet, writes or wipes the file. */
  lemma LogExtended(w: World, w': World, p: nat, e: Effect)
    requires LogTrue(w) && p < |w.pcs| && |w'.pcs| == |w.pcs| && w'.log == w.log + [e] && w.pcs[p].Truncated?
    requires forall q :: 0 <= q < |w.pcs| && q != p ==> w'.pcs[q] == w.pcs[q]
    requires (e == Applied(p) && w'.pcs[p].Saved?) || (e == Wiped && w'.pcs[p].Dead?)
    ensures LogTrue(w')
  {
  }

  lemma StepLogTrue(w: World, p: nat, a: Action, z: Setup)
    requires |w.pcs| == z.n && LogTrue(w)
    ensures LogTrue(Step(w, p, a, z))
  {
    if p < |w.pcs| {
      var w' := Step(w, p, a, z);
      if w.pcs[p].Truncated? && (a.WriteOut? || a.Crash?) {
        LogExtended(w, w', p, if a.WriteOut? then Applied(p) else Wiped);
      } else {
        LogKept(w, w', p);
      }
    }
  }

  lemma {:induction false} ExecLogTrue(w: World, run: seq<Event>, z: Setup)
    requires |w.pcs| == z.n && LogTrue(w)
    ensures LogTrue(Exec(w, run, z))
    decreases |run|
  {
    if run != [] {
      StepLogTrue(w, run[0].pid, run[0].action, z);
      ExecLogTrue(Step(w, run[0].pid, run[0].action, z), run[1..], z);
    }
  }

  /** The processes are calls of `check_url_with_cache`. */
  function CheckSetup(requests: seq<Request>, leftover: bool, initial: Content, width: Entry -> nat): Setup
  {
    Setup(|requests|, leftover, initial,
          (p: nat, d: seq<Entry>) => if p < |requests| then Refresh(d, requests[p]) else d,
          (p: nat, d: seq<Entry>) =>
            if p < |requests| then OnDisk(EvictCache(d, width, requests[p].caps, requests[p].strategy)) else d)
  }

  ghost predicate AllApplied(log: seq<Effect>, n: nat)
  {
    forall i :: 0 <= i < |log| ==> log[i].Applied? && log[i].pid < n
  }

  /** The log as a run of the sequential model. */
  function AsOps(log: seq<Effect>, requests: seq<Request>): seq<CacheHistory.Op>
    requires AllApplied(log, |requests|)
  {
    if log == [] then []
    else
      var n := |log| - 1;
      assert AllApplied(log[..n], |requests|) by { assert forall i :: 0 <= i < n ==> log[..n][i] == log[i]; }
      AsOps(log[..n], requests) + [CacheHistory.DoCheck(requests[log[n].pid])]
  }

  lemma AfterOne(ops: seq<CacheHistory.Op>, op: CacheHistory.Op, sizes: CacheHistory.Sizes)
    ensures CacheHistory.After(ops + [op], sizes) == CacheHistory.Step(CacheHistory.After(ops, sizes), op, sizes)
  {
    assert (ops + [op])[..|ops + [op]| - 1] == ops;
  }

  lemma CheckIsRefreshAndSave(st: Store, q: Request, width: Entry -> nat)
    ensures Load(Check(st, q, width), q.path)
         == OnDisk(EvictCache(Refresh(Load(st, q.path), q), width, q.caps, q.strategy))
  {
  }

  lemma {:induction false} ReplayIsSequential(log: seq<Effect>, requests: seq<Request>, path: Path, leftover: bool,
                                              initial: Content, before: seq<CacheHistory.Op>, sizes: CacheHistory.Sizes)
    requires AllApplied(log, |requests|)
    requires forall i :: 0 <= i < |requests| ==> requests[i].path == path
    requires Entries(initial) == Load(CacheHistory.After(before, sizes), path)
    ensures Entries(Replay(log, CheckSetup(requests, leftover, initial, sizes.width))) ==
              Load(CacheHistory.After(before + AsOps(log, requests), sizes), path)
  {
    if log == [] {
      assert before + [] == before;
    } else {
      var n := |log| - 1;
      assert AllApplied(log[..n], |requests|) by { assert forall i :: 0 <= i < n ==> log[..n][i] == log[i]; }
      ReplayIsSequential(log[..n], requests, path, leftover, initial, before, sizes);
      LastOp(log, requests, before);
      LastSave(log, requests, leftover, initial, sizes.width, log[n].pid);
      OneMoreRequest(Replay(log[..n], CheckSetup(requests, leftover, initial, sizes.width)),
                     before + AsOps(log[..n], requests), requests[log[n].pid], sizes);
    }
  }

  lemma LastOp(log: seq<Effect>, requests: seq<Request>, before: seq<CacheHistory.Op>)
    requires log != [] && AllApplied(log, |requests|) && AllApplied(log[..|log| - 1], |requests|)
    ensures before + AsOps(log, requests)
         == before + AsOps(log[..|log| - 1], requests) + [CacheHistory.DoCheck(requests[log[|log| - 1].pid])]
  {
    var ops, last := AsOps(log[..|log| - 1], requests), CacheHistory.DoCheck(requests[log[|log| - 1].pid]);
    assert AsOps(log, requests) == ops + [last];
    assert before + (ops + [last]) == before + ops + [last];
  }

  lemma SetupOf(requests: seq<Request>, leftover: bool, initial: Content, width: Entry -> nat, p: nat, d: seq<Entry>)
    requires p < |requests|
    ensures var z, q := CheckSetup(requests, leftover, initial, width), requests[p];
            z.refresh(p, d) == Refresh(d, q) && z.written(p, d) == OnDisk(EvictCache(d, width, q.caps, q.strategy))
  {
  }

  lemma LastEffect(log: seq<Effect>, z: Setup, p: nat)
    requires log != [] && log[|log| - 1] == Applied(p)
    ensures Replay(log, z) == Data(z.written(p, z.refresh(p, Entries(Replay(log[..|log| - 1], z)))))
  {
  }

  lemma LastSave(log: seq<Effect>, requests: seq<Request>, leftover: bool, initial: Content, width: Entry -> nat,
                 p: nat)
    requires log != [] && log[|log| - 1] == Applied(p) && p < |requests|
    ensures var z := CheckSetup(requests, leftover, initial, width);
            var file, q := Replay(log[..|log| - 1], z), requests[p];
            Replay(log, z) == Data(OnDisk(EvictCache(Refresh(Entries(file), q), width, q.caps, q.strategy)))
  {
    var z := CheckSetup(requests, leftover, initial, width);
    var d := Entries(Replay(log[..|log| - 1], z));
    LastEffect(log, z, p);
    SetupOf(requests, leftover, initial, width, p, d);
    SetupOf(requests, leftover, initial, width, p, z.refresh(p, d));
  }

  /** A request refreshes and saves what the sequential model would give it. */
  lemma OneMoreRequest(file: Content, ops: seq<CacheHistory.Op>, q: Request, sizes: CacheHistory.Sizes)
    requires Entries(file) == Load(CacheHistory.After(ops, sizes), q.path)
    ensures OnDisk(EvictCache(Refresh(Entries(file), q), sizes.width, q.caps, q.strategy)) ==
              Load(CacheHistory.After(ops + [CacheHistory.DoCheck(q)], sizes), q.path)
  {
    AfterOne(ops, CacheHistory.DoCheck(q), sizes);
    CheckIsRefreshAndSave(CacheHistory.After(ops, sizes), q, sizes.width);
  }

  /** No increment is lost: after a run in which the sections exclude each other and nobody crashes, and
      all `requests` on one path have finished, some order of the requests explains the file, and in that
      order every stored entry is its last fetch with one count per hit since. The run may start on any
      file that earlier operations (`before`) left there, or on none. */
  lemma NoHitIsLost(run: seq<Event>, requests: seq<Request>, path: Path, leftover: bool, initial: Content,
                    before: seq<CacheHistory.Op>, sizes: CacheHistory.Sizes)
    requires AlwaysOneInside(Initial(CheckSetup(requests, leftover, initial, sizes.width)), run,
                             CheckSetup(requests, leftover, initial, sizes.width))
    requires forall i :: 0 <= i < |run| ==> run[i].action != Crash
    requires forall i :: 0 <= i < |requests| ==> requests[i].path == path
    requires Entries(initial) == Load(CacheHistory.After(before, sizes), path)
    requires var z := CheckSetup(requests, leftover, initial, sizes.width);
             forall p :: 0 <= p < |requests| ==> Exec(Initial(z), run, z).pcs[p].Done?
    ensures var z := CheckSetup(requests, leftover, initial, sizes.width);
            var w := Exec(Initial(z), run, z);
            && AllApplied(w.log, |requests|)
            && (forall p :: 0 <= p < |requests| ==> Applied(p) in w.log)
            && (forall i, j :: 0 <= i < j < |w.log| ==> w.log[i] != w.log[j])
            && var ops := before + AsOps(w.log, requests);
            && Entries(w.file) == Load(CacheHistory.After(ops, sizes), path)
            && CacheHistory.FileAccounted(Entries(w.file), ops, path, sizes)
  {
    var z := CheckSetup(requests, leftover, initial, sizes.width);
    var w := Exec(Initial(z), run, z);
    FinishedLog(run, z);
    var ops := before + AsOps(w.log, requests);
    assert Entries(w.file) == Load(CacheHistory.After(ops, sizes), path) by {
      ExclusiveRunsAreSerial(run, z);
      ReplayIsSequential(w.log, requests, path, leftover, initial, before, sizes);
    }
    CacheHistory.EntriesAccounted(ops, sizes);
  }

  lemma FinishedLog(run: seq<Event>, z: Setup)
    requires forall i :: 0 <= i < |run| ==> run[i].action != Crash
    requires forall p :: 0 <= p < z.n ==> Exec(Initial(z), run, z).pcs[p].Done?
    ensures var w := Exec(Initial(z), run, z);
            && AllApplied(w.log, z.n)
            && (forall p :: 0 <= p < z.n ==> Applied(p) in w.log)
            && (forall i, j :: 0 <= i < j < |w.log| ==> w.log[i] != w.log[j])
  {
    var w := Exec(Initial(z), run, z);
    ExecLogTrue(Initial(z), run, z);
    ExecNoWipe(Initial(z), run, z);
    assert forall i :: 0 <= i < |w.log| ==> w.log[i] in w.log;
  }

  lemma {:induction false} ExecNoWipe(w: World, run: seq<Event>, z: Setup)
    requires |w.pcs| == z.n && Wiped !in w.log
    requires forall i :: 0 <= i < |run| ==> run[i].action != Crash
    ensures Wiped !in Exec(w, run, z).log
    decreases |run|
  {
    if run != [] {
      ExecNoWipe(Step(w, run[0].pid, run[0].action, z), run[1..], z);
    }
  }

  // ----- what goes wrong otherwise

  lemma ExecFrom(w: World, run: seq<Event>, k: nat, z: Setup)
    requires |w.pcs| == z.n && k < |run|
    ensures Exec(w, run[k..], z) == Exec(Step(w, run[k].pid, run[k].action, z), run[k + 1..], z)
  {
    assert run[k..][1..] == run[k + 1..];
  }

  ghost predicate TwoInsideWithoutTimeout(run: seq<Event>, z: Setup)
    requires z.n == 2
  {
    var w := Exec(Initial(z), run, z);
    && (forall i :: 0 <= i < |run| ==> run[i].action !in {TimeOut, OpenFails, Crash})
    && Critical(w.pcs[0]) && Critical(w.pcs[1])
  }

  /** Without the unlink clause the exclusion fails: a process that unlinks a lock file it takes for
      stale lets a second one in, on a new inode, while the first is still inside. */
  lemma StaleUnlinkLetsTwoIn(z: Setup)
    requires z.n == 2
    ensures exists run :: TwoInsideWithoutTimeout(run, z)
  {
    var first := [Event(0, KeepLockFile), Event(0, OpenLock), Event(0, TryLock)];
    var second := [Event(1, UnlinkStale), Event(1, OpenLock), Event(1, TryLock)];
    var w := Exec(Initial(z), first, z);
    FirstLocks(Initial(z), first, z);
    SecondLocksAnew(w, second, z);
    ExecConcat(Initial(z), first, second, z);
    assert TwoInsideWithoutTimeout(first + second, z);
  }

  lemma FirstLocks(w: World, run: seq<Event>, z: Setup)
    requires z.n == 2 && w == Initial(z)
    requires run == [Event(0, KeepLockFile), Event(0, OpenLock), Event(0, TryLock)]
    ensures var w' := Exec(w, run, z);
            && w'.pcs[0] == Entered(Some(0)) && w'.pcs[1] == Start && w'.nextInode == 1 && 1 !in w'.holder
  {
    assert run[0..] == run;
    ExecFrom(w, run, 0, z);
    ExecFrom(Step(w, 0, KeepLockFile, z), run, 1, z);
    ExecFrom(Step(Step(w, 0, KeepLockFile, z), 0, OpenLock, z), run, 2, z);
  }

  lemma SecondLocksAnew(w: World, run: seq<Event>, z: Setup)
    requires z.n == 2 && |w.pcs| == 2 && w.pcs[0] == Entered(Some(0)) && w.pcs[1] == Start
    requires w.nextInode == 1 && 1 !in w.holder
    requires run == [Event(1, UnlinkStale), Event(1, OpenLock), Event(1, TryLock)]
    ensures var w' := Exec(w, run, z); w'.pcs[0] == Entered(Some(0)) && w'.pcs[1] == Entered(Some(1))
  {
    assert run[0..] == run;
    ExecFrom(w, run, 0, z);
    ExecFrom(Step(w, 1, UnlinkStale, z), run, 1, z);
    ExecFrom(Step(Step(w, 1, UnlinkStale, z), 1, OpenLock, z), run, 2, z);
  }

  /** Two processes finish without crash or unlink, and the file is `d1`. */
  ghost predicate BothFinishWith(run: seq<Event>, z: Setup, d1: seq<Entry>)
    requires z.n == 2
  {
    && (forall i :: 0 <= i < |run| ==> run[i].action !in {UnlinkStale, OpenFails, Crash})
    && var w := Exec(Initial(z), run, z);
    && w.pcs[0].Done? && w.pcs[1].Done? && w.file == Data(d1)
  }

  /** Without the timeout clause hits are lost, whatever is asked: a process that gave up waiting saves in
      the middle of the holder's section, and of two hits on one entry only one is counted. */
  lemma TimeoutLosesAHit(q: Request, leftover: bool, width: Entry -> nat)
    requires IsHit([Entry(q.url, 0.0, [], 0)], q) && !Over(width, q.caps)([Entry(q.url, 0.0, [], 1)])
    ensures exists run :: BothFinishWith(run, CheckSetup([q, q], leftover, Data([Entry(q.url, 0.0, [], 0)]), width),
                                         [Entry(q.url, 0.0, [], 1)])
  {
    CountsOne(q, leftover, width);
    TwoWriters(CheckSetup([q, q], leftover, Data([Entry(q.url, 0.0, [], 0)]), width),
               [Entry(q.url, 0.0, [], 0)], [Entry(q.url, 0.0, [], 1)]);
  }

  lemma CountsOne(q: Request, leftover: bool, width: Entry -> nat)
    requires IsHit([Entry(q.url, 0.0, [], 0)], q) && !Over(width, q.caps)([Entry(q.url, 0.0, [], 1)])
    ensures OneCount(CheckSetup([q, q], leftover, Data([Entry(q.url, 0.0, [], 0)]), width),
                     [Entry(q.url, 0.0, [], 0)], [Entry(q.url, 0.0, [], 1)])
  {
    var d0, d1 := [Entry(q.url, 0.0, [], 0)], [Entry(q.url, 0.0, [], 1)];
    OneHit(q, width);
    var z := CheckSetup([q, q], leftover, Data(d0), width);
    assert z.refresh(0, d0) == Refresh(d0, q) && z.refresh(1, d0) == Refresh(d0, q);
    assert z.written(0, d1) == OnDisk(EvictCache(d1, width, q.caps, q.strategy));
    assert z.written(1, d1) == OnDisk(EvictCache(d1, width, q.caps, q.strategy));
  }

  lemma OneHit(q: Request, width: Entry -> nat)
    requires IsHit([Entry(q.url, 0.0, [], 0)], q) && !Over(width, q.caps)([Entry(q.url, 0.0, [], 1)])
    ensures Refresh([Entry(q.url, 0.0, [], 0)], q) == [Entry(q.url, 0.0, [], 1)]
    ensures OnDisk(EvictCache([Entry(q.url, 0.0, [], 1)], width, q.caps, q.strategy)) == [Entry(q.url, 0.0, [], 1)]
  {
    var d0, d1 := [Entry(q.url, 0.0, [], 0)], [Entry(q.url, 0.0, [], 1)];
    assert Find(d0, q.url) == 0;
    assert Written(d0, q) == d1[0];
    EvictNothing(d1, width, q.strategy, q.caps);
  }

  lemma TwoWriters(z: Setup, d0: seq<Entry>, d1: seq<Entry>)
    requires OneCount(z, d0, d1) && z.initial == Data(d0)
    ensures exists run :: BothFinishWith(run, z, d1)
  {
    var w0 := Initial(z);
    var w1 := Exec(w0, ENTERS, z);
    var w2 := Exec(w1, WAITS, z);
    var w3 := Exec(w2, OVERTAKES, z);
    FirstEnters(w0, z, d0, d1);
    SecondWaits(w1, z, d0, d1);
    SecondOvertakes(w2, z, d0, d1);
    FirstOverwrites(w3, z, d0, d1);
    var run := ENTERS + WAITS + OVERTAKES + OVERWRITES;
    assert Exec(w0, run, z) == Exec(w3, OVERWRITES, z) by { ExecFour(w0, ENTERS, WAITS, OVERTAKES, OVERWRITES, z); }
    NoUnlinkNoCrash();
    assert BothFinishWith(run, z, d1);
  }

  lemma NoUnlinkNoCrash()
    ensures var run := ENTERS + WAITS + OVERTAKES + OVERWRITES;
            forall i :: 0 <= i < |run| ==> run[i].action !in {UnlinkStale, OpenFails, Crash}
  {
  }

  lemma ExecFour(w: World, a: seq<Event>, b: seq<Event>, c: seq<Event>, d: seq<Event>, z: Setup)
    requires |w.pcs| == z.n
    ensures Exec(w, a + b + c + d, z) == Exec(Exec(Exec(Exec(w, a, z), b, z), c, z), d, z)
  {
    ExecConcat(w, a, b, z);
    ExecConcat(w, a + b, c, z);
    ExecConcat(w, a + b + c, d, z);
  }

  lemma {:induction false} ExecConcat(w: World, a: seq<Event>, b: seq<Event>, z: Setup)
    requires |w.pcs| == z.n
    ensures Exec(w, a + b, z) == Exec(Exec(w, a, z), b, z)
    decreases |a|
  {
    if a == [] {
      assert a + b == b;
    } else {
      assert (a + b)[1..] == a[1..] + b;
      ExecConcat(Step(w, a[0].pid, a[0].action, z), a[1..], b, z);
    }
  }

  const ENTERS := [Event(0, KeepLockFile), Event(0, OpenLock), Event(0, TryLock), Event(0, LoadCache)]
  const WAITS := [Event(1, KeepLockFile), Event(1, OpenLock), Event(1, TryLock), Event(1, TimeOut),
                  Event(1, LoadCache)]
  const OVERTAKES := [Event(1, OpenForWrite), Event(1, WriteOut), Event(1, Release)]
  const OVERWRITES := [Event(0, OpenForWrite), Event(0, WriteOut), Event(0, Release)]

  ghost predicate OneCount(z: Setup, d0: seq<Entry>, d1: seq<Entry>)
  {
    z.n == 2 && z.refresh(0, d0) == d1 && z.refresh(1, d0) == d1 && z.written(0, d1) == d1 && z.written(1, d1) == d1
  }

  lemma FirstEnters(w: World, z: Setup, d0: seq<Entry>, d1: seq<Entry>)
    requires OneCount(z, d0, d1) && w == Initial(z) && w.file == Data(d0)
    ensures var w' := Exec(w, ENTERS, z);
            && w'.pcs[0] == Loaded(Some(0), d1) && w'.pcs[1] == Start && w'.file == Data(d0)
            && w'.lockFile == Some(0) && 0 in w'.holder
  {
    assert ENTERS[0..] == ENTERS && ENTERS[4..] == [];
    ExecFrom(w, ENTERS, 0, z);
    var w1 := Step(w, 0, KeepLockFile, z);
    ExecFrom(w1, ENTERS, 1, z);
    var w2 := Step(w1, 0, OpenLock, z);
    ExecFrom(w2, ENTERS, 2, z);
    var w3 := Step(w2, 0, TryLock, z);
    ExecFrom(w3, ENTERS, 3, z);
  }

  lemma SecondWaits(w: World, z: Setup, d0: seq<Entry>, d1: seq<Entry>)
    requires OneCount(z, d0, d1) && |w.pcs| == 2 && w.pcs[0] == Loaded(Some(0), d1) && w.pcs[1] == Start
    requires w.file == Data(d0) && w.lockFile == Some(0) && 0 in w.holder
    ensures var w' := Exec(w, WAITS, z);
            w'.pcs[0] == Loaded(Some(0), d1) && w'.pcs[1] == Loaded(None, d1)
  {
    assert WAITS[0..] == WAITS && WAITS[5..] == [];
    ExecFrom(w, WAITS, 0, z);
    var w1 := Step(w, 1, KeepLockFile, z);
    ExecFrom(w1, WAITS, 1, z);
    var w2 := Step(w1, 1, OpenLock, z);
    ExecFrom(w2, WAITS, 2, z);
    var w3 := Step(w2, 1, TryLock, z);
    ExecFrom(w3, WAITS, 3, z);
    var w4 := Step(w3, 1, TimeOut, z);
    ExecFrom(w4, WAITS, 4, z);
  }

  lemma SecondOvertakes(w: World, z: Setup, d0: seq<Entry>, d1: seq<Entry>)
    requires OneCount(z, d0, d1) && |w.pcs| == 2 && w.pcs[0] == Loaded(Some(0), d1) && w.pcs[1] == Loaded(None, d1)
    ensures var w' := Exec(w, OVERTAKES, z); w'.pcs[0] == Loaded(Some(0), d1) && w'.pcs[1] == Done
  {
    assert OVERTAKES[0..] == OVERTAKES && OVERTAKES[3..] == [];
    ExecFrom(w, OVERTAKES, 0, z);
    var w1 := Step(w, 1, OpenForWrite, z);
    ExecFrom(w1, OVERTAKES, 1, z);
    var w2 := Step(w1, 1, WriteOut, z);
    ExecFrom(w2, OVERTAKES, 2, z);
  }

  lemma FirstOverwrites(w: World, z: Setup, d0: seq<Entry>, d1: seq<Entry>)
    requires OneCount(z, d0, d1) && |w.pcs| == 2 && w.pcs[0] == Loaded(Some(0), d1) && w.pcs[1] == Done
    ensures var w' := Exec(w, OVERWRITES, z); w'.pcs[0] == Done && w'.pcs[1] == Done && w'.file == Data(d1)
  {
    assert OVERWRITES[0..] == OVERWRITES && OVERWRITES[3..] == [];
    ExecFrom(w, OVERWRITES, 0, z);
    var w1 := Step(w, 0, OpenForWrite, z);
    ExecFrom(w1, OVERWRITES, 1, z);
    var w2 := Step(w1, 0, WriteOut, z);
    ExecFrom(w2, OVERWRITES, 2, z);
  }
}
