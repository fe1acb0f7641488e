/** The session ingest: a lock file, then up to four files written one after another, each through a
    shared ".partial" name and a rename. Any number of callers, exceptions and crashes at any step. */
module Ingest {
  import opened Options

  /** The target files; the daily backlog is named after the day. */
  datatype Slot = Handoff | Backlog(day: string) | State | Worklog

  datatype Write = Write(slot: Slot, content: string)

  datatype Args = Args(handoff: string, backlog: string, state: Option<string>, worklog: string, day: string)

  /** The requested writes in the order of the program; empty texts and a missing state are skipped. */
  function Requested(a: Args): (w: seq<Write>)
  {
    (if a.handoff != "" then [Write(Handoff, a.handoff)] else [])
    + (if a.backlog != "" then [Write(Backlog(a.day), a.backlog)] else [])
    + (if a.state.Some? then [Write(State, a.state.value)] else [])
    + (if a.worklog != "" then [Write(Worklog, a.worklog)] else [])
  }

  /** Where a caller stands; `done` counts its completed renames. `acquire_lock` is two steps, a test
      for the lock file and the touch that makes it. */
  datatype Pc =
    | Start
    | Tested
    | Holding(done: nat)
    | Opened(done: nat)
    | Complete(done: nat)
    | Leaving(done: nat)
    | Finished(done: nat)
    | Rejected
    | Dead(done: nat)
    | DeadOutside

  datatype Action =
    | Test | Touch | OpenPartial | WriteSome(n: nat) | FinishPartial | Rename | Fail | Leave | Release | Crash

  /** `last` and `snapshot` record, for the proofs, who touched the lock last and what the target files
      were then. */
  datatype World = World(lock: bool, files: map<Slot, string>, partials: map<Slot, string>, pcs: seq<Pc>,
                         last: Option<nat>, snapshot: map<Slot, string>)

  /** The writes each caller requests, the target files and the partial files there are at first. */
  datatype Job = Job(writes: seq<seq<Write>>, files: map<Slot, string>, partials: map<Slot, string>)

  /** Callers of `ingest_session_atomic`. */
  function IngestJob(calls: seq<Args>, files: map<Slot, string>, partials: map<Slot, string>): Job
  {
    Job(seq(|calls|, i requires 0 <= i < |calls| => Requested(calls[i])), files, partials)
  }

  function Initial(job: Job): World
  {
    World(false, job.files, job.partials, seq(|job.writes|, _ => Start), None, job.files)
  }

  function Move(w: World, p: nat, pc: Pc): World
    requires p < |w.pcs|
  {
    w.(pcs := w.pcs[p := pc])
  }

  predicate Active(pc: Pc) { pc.Holding? || pc.Opened? || pc.Complete? || pc.Leaving? }

  function Step(w: World, p: nat, a: Action, job: Job): (w': World)
    requires |w.pcs| == |job.writes|
    ensures |w'.pcs| == |w.pcs|
  {
    if p >= |w.pcs| then w
    else
      var pc := w.pcs[p];
      var writes := job.writes[p];
      match a
      case Test => if pc.Start? then Move(w, p, if w.lock then Rejected else Tested) else w
      case Touch =>
        if pc.Tested? then Move(w, p, Holding(0)).(lock := true, last := Some(p), snapshot := w.files)
        else w
      case OpenPartial =>
        if pc.Holding? && pc.done < |writes|
        then Move(w, p, Opened(pc.done)).(partials := w.partials[writes[pc.done].slot := ""]) else w
      case WriteSome(n) =>
        if pc.Opened? && pc.done < |writes| && n <= |writes[pc.done].content|
        then w.(partials := w.partials[writes[pc.done].slot := writes[pc.done].content[..n]]) else w
      case FinishPartial =>
        if pc.Opened? && pc.done < |writes|
        then Move(w, p, Complete(pc.done)).(partials := w.partials[writes[pc.done].slot := writes[pc.done].content])
        else w
      case Rename =>
        if pc.Complete? && pc.done < |writes| && writes[pc.done].slot in w.partials
        then var slot := writes[pc.done].slot;
             Move(w, p, Holding(pc.done + 1)).(files := w.files[slot := w.partials[slot]],
                                          partials := w.partials - {slot})
        else w
      case Fail => if pc.Holding? || pc.Opened? || pc.Complete? then Move(w, p, Leaving(pc.done)) else w
      case Leave => if pc.Holding? && pc.done == |writes| then Move(w, p, Leaving(pc.done)) else w
      case Release => if pc.Leaving? then Move(w, p, Finished(pc.done)).(lock := false) else w
      case Crash =>
        if Active(pc) then Move(w, p, Dead(pc.done))
        else if pc.Start? || pc.Tested? then Move(w, p, DeadOutside) else w
  }

  datatype Event = Event(pid: nat, action: Action)

  function Exec(w: World, run: seq<Event>, job: Job): (w': World)
    requires |w.pcs| == |job.writes|
    ensures |w'.pcs| == |w.pcs|
    decreases |run|
  {
    if run == [] then w else Exec(Step(w, run[0].pid, run[0].action, job), run[1..], job)
  }

  /** Nobody touches a lock file that has appeared since it tested for one. When test and touch are one
      atomic step this always holds. */
  predicate Races(w: World, e: Event)
  {
    e.action.Touch? && e.pid < |w.pcs| && w.pcs[e.pid].Tested? && w.lock
  }

  predicate RaceFree(w: World, run: seq<Event>, job: Job)
    requires |w.pcs| == |job.writes|
    decreases |run|
  {
    run == [] || (!Races(w, run[0]) && RaceFree(Step(w, run[0].pid, run[0].action, job), run[1..], job))
  }

  // ----- the invariant

  /** Inside the locked section, or killed there. */
  predicate Inside(pc: Pc) { Active(pc) || pc.Dead? }

  function Progress(pc: Pc): nat
  {
    match pc
    case Holding(k) => k
    case Opened(k) => k
    case Complete(k) => k
    case Leaving(k) => k
    case Finished(k) => k
    case Dead(k) => k
    case _ => 0
  }

  function Applied(files: map<Slot, string>, writes: seq<Write>): map<Slot, string>
  {
    if writes == [] then files
    else
      var n := |writes| - 1;
      Applied(files, writes[..n])[writes[n].slot := writes[n].content]
  }

  ghost predicate Exclusive(w: World)
  {
    && (forall p :: 0 <= p < |w.pcs| && Inside(w.pcs[p]) ==> w.lock && w.last == Some(p))
    && (w.last.Some? ==> w.last.value < |w.pcs| && (Inside(w.pcs[w.last.value]) || w.pcs[w.last.value].Finished?))
    && (forall p :: 0 <= p < |w.pcs| && w.pcs[p].Finished? ==> w.last.Some?)
  }

  ghost predicate PartialOwn(w: World, job: Job)
    requires |w.pcs| == |job.writes|
  {
    forall p :: 0 <= p < |w.pcs| && w.pcs[p].Complete? && w.pcs[p].done < |job.writes[p]| ==>
      var wr := job.writes[p][w.pcs[p].done]; wr.slot in w.partials && w.partials[wr.slot] == wr.content
  }

  ghost predicate PrefixApplied(w: World, job: Job)
    requires |w.pcs| == |job.writes|
  {
    && (forall p :: 0 <= p < |w.pcs| ==> Progress(w.pcs[p]) <= |job.writes[p]|)
    && (forall p :: 0 <= p < |w.pcs| && (w.pcs[p].Opened? || w.pcs[p].Complete?) ==>
          Progress(w.pcs[p]) < |job.writes[p]|)
    && (if w.last.None? then w.files == job.files
        else w.last.value < |w.pcs|
             && Progress(w.pcs[w.last.value]) <= |job.writes[w.last.value]|
             && w.files == Applied(w.snapshot, job.writes[w.last.value][..Progress(w.pcs[w.last.value])]))
  }

  ghost predicate Inv(w: World, job: Job)
    requires |w.pcs| == |job.writes|
  {
    Exclusive(w) && PartialOwn(w, job) && PrefixApplied(w, job)
  }

  lemma StepExclusive(w: World, p: nat, a: Action, job: Job)
    requires |w.pcs| == |job.writes| && Exclusive(w) && !Races(w, Event(p, a))
    ensures Exclusive(Step(w, p, a, job))
  {
  }

  lemma StepPartialOwn(w: World, p: nat, a: Action, job: Job)
    requires |w.pcs| == |job.writes| && Exclusive(w) && PartialOwn(w, job) && !Races(w, Event(p, a))
    ensures PartialOwn(Step(w, p, a, job), job)
  {
    if p < |w.pcs| {
      forall q | 0 <= q < |w.pcs| && q != p && Active(w.pcs[q]) && Active(w.pcs[p]) ensures false { }
    }
  }

  lemma StepPrefix(w: World, p: nat, a: Action, job: Job)
    requires |w.pcs| == |job.writes| && Inv(w, job) && !Races(w, Event(p, a))
    ensures PrefixApplied(Step(w, p, a, job), job)
  {
    var w' := Step(w, p, a, job);
    if p < |w.pcs| && w' != w {
      match a {
        case Rename => RenamePrefix(w, p, job);
        case Touch => assert job.writes[p][..0] == [];
        case _ => QuietPrefix(w, w', p, job);
      }
    }
  }

  lemma RenamePrefix(w: World, p: nat, job: Job)
    requires |w.pcs| == |job.writes| && Inv(w, job) && p < |w.pcs| && Step(w, p, Rename, job) != w
    ensures PrefixApplied(Step(w, p, Rename, job), job)
  {
    assert w.last == Some(p);
    var k := w.pcs[p].done;
    assert job.writes[p][..k + 1][..k] == job.writes[p][..k];
  }

  lemma QuietPrefix(w: World, w': World, p: nat, job: Job)
    requires |w.pcs| == |job.writes| && |w'.pcs| == |w.pcs| && PrefixApplied(w, job) && p < |w.pcs|
    requires w'.files == w.files && w'.last == w.last && w'.snapshot == w.snapshot
    requires forall q :: 0 <= q < |w.pcs| && q != p ==> w'.pcs[q] == w.pcs[q]
    requires Progress(w'.pcs[p]) == Progress(w.pcs[p])
    requires w'.pcs[p].Opened? || w'.pcs[p].Complete? ==> Progress(w.pcs[p]) < |job.writes[p]|
    ensures PrefixApplied(w', job)
  {
  }

  lemma {:induction false} ExecInv(w: World, run: seq<Event>, job: Job)
    requires |w.pcs| == |job.writes| && Inv(w, job) && RaceFree(w, run, job)
    ensures Inv(Exec(w, run, job), job)
    decreases |run|
  {
    if run != [] {
      var p, a := run[0].pid, run[0].action;
      StepExclusive(w, p, a, job);
      StepPartialOwn(w, p, a, job);
      StepPrefix(w, p, a, job);
      ExecInv(Step(w, p, a, job), run[1..], job);
    }
  }

  // ----- the promises

  /** At most one ingest is between acquiring and releasing, so the ".partial" names never collide. */
  lemma OneIngestAtATime(run: seq<Event>, job: Job, p: nat, q: nat)
    requires RaceFree(Initial(job), run, job) && p < |job.writes| && q < |job.writes|
    ensures var w := Exec(Initial(job), run, job);
            Inside(w.pcs[p]) && Inside(w.pcs[q]) ==> p == q && w.lock
  {
    ExecInv(Initial(job), run, job);
  }

  /** At every moment, in particular when the last caller has crashed, the target files are what it found
      plus a prefix of its requested writes, in order, each complete; and as long as it has not released,
      the lock is still there. */
  lemma FilesAreAPrefix(run: seq<Event>, job: Job)
    requires RaceFree(Initial(job), run, job)
    ensures var w := Exec(Initial(job), run, job);
            if w.last.None? then w.files == job.files
            else
              var p := w.last.value;
              && p < |w.pcs| && Progress(w.pcs[p]) <= |job.writes[p]|
              && w.files == Applied(w.snapshot, job.writes[p][..Progress(w.pcs[p])])
              && (w.pcs[p].Finished? || (Inside(w.pcs[p]) && w.lock))
  {
    ExecInv(Initial(job), run, job);
  }

  /** Only the release of the caller that made it removes the lock; a rejected caller never does. */
  lemma OnlyTheHolderUnlocks(run: seq<Event>, job: Job, e: Event)
    requires RaceFree(Initial(job), run, job)
    requires var w := Exec(Initial(job), run, job); w.lock && !Step(w, e.pid, e.action, job).lock
    ensures var w := Exec(Initial(job), run, job);
            e.action.Release? && w.last == Some(e.pid) && e.pid < |w.pcs| && w.pcs[e.pid].Leaving?
  {
    ExecInv(Initial(job), run, job);
    UnlockStep(Exec(Initial(job), run, job), e, job);
  }

  lemma UnlockStep(w: World, e: Event, job: Job)
    requires |w.pcs| == |job.writes| && Exclusive(w) && w.lock && !Step(w, e.pid, e.action, job).lock
    ensures e.action.Release? && w.last == Some(e.pid) && e.pid < |w.pcs| && w.pcs[e.pid].Leaving?
  {
  }

  /** A caller killed inside keeps everybody out for good: no later run changes the target files. */
  lemma {:induction false} CrashBlocksForever(w: World, run: seq<Event>, job: Job, p: nat)
    requires |w.pcs| == |job.writes| && Exclusive(w) && RaceFree(w, run, job)
    requires p < |w.pcs| && w.pcs[p].Dead?
    ensures var w' := Exec(w, run, job); w'.lock && w'.files == w.files && w'.pcs[p] == w.pcs[p]
    decreases |run|
  {
    if run != [] {
      StepExclusive(w, run[0].pid, run[0].action, job);
      BlockedStep(w, run[0], job, p);
      CrashBlocksForever(Step(w, run[0].pid, run[0].action, job), run[1..], job, p);
    }
  }

  lemma BlockedStep(w: World, e: Event, job: Job, p: nat)
    requires |w.pcs| == |job.writes| && Exclusive(w) && p < |w.pcs| && w.pcs[p].Dead?
    ensures var w' := Step(w, e.pid, e.action, job); w'.files == w.files && w'.pcs[p] == w.pcs[p]
  {
  }

  // ----- which text reaches which file

  lemma AppliedOneMore(files: map<Slot, string>, done: seq<Write>, w: Write)
    ensures Applied(files, done + [w]) == Applied(files, done)[w.slot := w.content]
  {
    assert (done + [w])[..|done + [w]| - 1] == done;
  }

  function OfSlot(a: Args, slot: Slot): seq<Write>
  {
    match slot
    case Handoff => if a.handoff != "" then [Write(Handoff, a.handoff)] else []
    case Backlog(day) => if a.backlog != "" then [Write(Backlog(day), a.backlog)] else []
    case State => if a.state.Some? then [Write(State, a.state.value)] else []
    case Worklog => if a.worklog != "" then [Write(Worklog, a.worklog)] else []
  }

  /** The file at `slot` is `text`, or as it was if there is no text for it. */
  ghost predicate Holds(files: map<Slot, string>, was: map<Slot, string>, slot: Slot, text: Option<string>)
  {
    if text.Some? then slot in files && files[slot] == text.value
    else (slot in files <==> slot in was) && (slot in was ==> files[slot] == was[slot])
  }

  /** The first `cut` of handoff, backlog, state and index are new, as far as the call brings them;
      everything else is as it was. */
  ghost predicate NewUpTo(files: map<Slot, string>, was: map<Slot, string>, a: Args, cut: nat)
  {
    && Holds(files, was, Handoff, if cut > 0 && a.handoff != "" then Some(a.handoff) else None)
    && Holds(files, was, Backlog(a.day), if cut > 1 && a.backlog != "" then Some(a.backlog) else None)
    && Holds(files, was, State, if cut > 2 then a.state else None)
    && Holds(files, was, Worklog, if cut > 3 && a.worklog != "" then Some(a.worklog) else None)
    && forall slot :: slot !in {Handoff, Backlog(a.day), State, Worklog} ==> Holds(files, was, slot, None)
  }

  /** What the call asks for up to there. */
  function Parts(a: Args, cut: nat): (w: seq<Write>)
  {
    if cut == 0 then []
    else if cut == 1 then OfSlot(a, Handoff)
    else if cut == 2 then OfSlot(a, Handoff) + OfSlot(a, Backlog(a.day))
    else if cut == 3 then OfSlot(a, Handoff) + OfSlot(a, Backlog(a.day)) + OfSlot(a, State)
    else OfSlot(a, Handoff) + OfSlot(a, Backlog(a.day)) + OfSlot(a, State) + OfSlot(a, Worklog)
  }

  lemma AppliedPart(was: map<Slot, string>, done: seq<Write>, now: seq<Write>)
    requires |now| <= 1
    ensures Applied(was, done + now) ==
              if now == [] then Applied(was, done) else Applied(was, done)[now[0].slot := now[0].content]
  {
    if now == [] {
      assert done + now == done;
    } else {
      assert now == [now[0]];
      AppliedOneMore(was, done, now[0]);
    }
  }

  function SlotAt(a: Args, k: nat): Slot
  {
    if k == 0 then Handoff else if k == 1 then Backlog(a.day) else if k == 2 then State else Worklog
  }

  lemma PartsNext(a: Args, cut: nat)
    requires cut < 4
    ensures Parts(a, cut + 1) == Parts(a, cut) + OfSlot(a, SlotAt(a, cut))
  {
    assert [] + OfSlot(a, Handoff) == OfSlot(a, Handoff);
  }

  lemma OneMoreNew(files: map<Slot, string>, next: map<Slot, string>, was: map<Slot, string>, a: Args, cut: nat,
                   now: seq<Write>)
    requires cut < 4 && NewUpTo(files, was, a, cut) && now == OfSlot(a, SlotAt(a, cut))
    requires next == if now == [] then files else files[now[0].slot := now[0].content]
    ensures NewUpTo(next, was, a, cut + 1)
  {
    if now != [] { assert now[0].slot == SlotAt(a, cut); }
    forall slot | slot !in {Handoff, Backlog(a.day), State, Worklog} ensures Holds(next, was, slot, None) {
      assert Holds(files, was, slot, None);
    }
  }

  lemma {:induction false} PartsAreNew(was: map<Slot, string>, a: Args, cut: nat)
    requires cut <= 4
    ensures NewUpTo(Applied(was, Parts(a, cut)), was, a, cut)
  {
    if cut > 0 {
      var done, now := Parts(a, cut - 1), OfSlot(a, SlotAt(a, cut - 1));
      PartsAreNew(was, a, cut - 1);
      PartsNext(a, cut - 1);
      AppliedPart(was, done, now);
      OneMoreNew(Applied(was, done), Applied(was, done + now), was, a, cut - 1, now);
    }
  }

  /** Any part of the requested writes, from the front, is one of those. */
  lemma PrefixIsParts(a: Args, k: nat) returns (cut: nat)
    requires k <= |Requested(a)|
    ensures cut <= 4 && Requested(a)[..k] == Parts(a, cut)
    ensures k == |Requested(a)| ==> Requested(a) == Parts(a, 4)
  {
    var h, b, s, w := OfSlot(a, Handoff), OfSlot(a, Backlog(a.day)), OfSlot(a, State), OfSlot(a, Worklog);
    assert Requested(a) == h + b + s + w;
    cut := if k == 0 then 0 else if k <= |h| then 1 else if k <= |h + b| then 2 else if k <= |h + b + s| then 3 else 4;
    assert |Parts(a, cut)| == k;
  }

  /** At every moment, also when the caller has been killed, the files that the last caller is to write are
      new in the order handoff, backlog, state, index: a later one only if every earlier one that was
      brought is. */
  lemma FilesAreNewInOrder(run: seq<Event>, calls: seq<Args>, files: map<Slot, string>, partials: map<Slot, string>)
    requires RaceFree(Initial(IngestJob(calls, files, partials)), run, IngestJob(calls, files, partials))
    ensures var job := IngestJob(calls, files, partials);
            var w := Exec(Initial(job), run, job);
            w.last.Some? ==>
              && w.last.value < |calls|
              && exists cut: nat :: cut <= 4 && NewUpTo(w.files, w.snapshot, calls[w.last.value], cut)
  {
    var job := IngestJob(calls, files, partials);
    var w := Exec(Initial(job), run, job);
    FilesAreAPrefix(run, job);
    if w.last.Some? {
      var p := w.last.value;
      var cut := PrefixIsParts(calls[p], Progress(w.pcs[p]));
      PartsAreNew(w.snapshot, calls[p], cut);
    }
  }

  // ----- exactly when the callers exclude each other

  ghost predicate OneInside(w: World)
  {
    forall p, q :: 0 <= p < |w.pcs| && 0 <= q < |w.pcs| && Inside(w.pcs[p]) && Inside(w.pcs[q]) ==> p == q
  }

  /** At every moment of the run. */
  ghost predicate AlwaysOneInside(w: World, run: seq<Event>, job: Job)
    requires |w.pcs| == |job.writes|
  {
    forall k :: 0 <= k <= |run| ==> OneInside(Exec(w, run[..k], job))
  }

  lemma AlwaysOneInsideNext(w: World, run: seq<Event>, job: Job)
    requires |w.pcs| == |job.writes|
    ensures AlwaysOneInside(w, run, job) <==>
            OneInside(w) && (run == [] || AlwaysOneInside(Step(w, run[0].pid, run[0].action, job), run[1..], job))
  {
    assert run[..0] == [];
    if run != [] {
      var w' := Step(w, run[0].pid, run[0].action, job);
      forall k | 0 < k <= |run| ensures Exec(w, run[..k], job) == Exec(w', run[1..][..k - 1], job) {
        assert run[..k][1..] == run[1..][..k - 1];
      }
      forall k | 0 <= k <= |run[1..]| ensures Exec(w, run[..k + 1], job) == Exec(w', run[1..][..k], job) {}
    }
  }

  /** The lock file is there only while its maker is inside. */
  ghost predicate LockMeansInside(w: World)
  {
    w.lock ==> w.last.Some? && w.last.value < |w.pcs| && Inside(w.pcs[w.last.value])
  }

  lemma StepLockMeansInside(w: World, e: Event, job: Job)
    requires |w.pcs| == |job.writes| && Exclusive(w) && LockMeansInside(w) && !Races(w, e)
    ensures LockMeansInside(Step(w, e.pid, e.action, job))
  {
  }

  lemma RaceLetsTwoIn(w: World, e: Event, job: Job)
    requires |w.pcs| == |job.writes| && LockMeansInside(w) && Races(w, e)
    ensures !OneInside(Step(w, e.pid, e.action, job))
  {
    var w' := Step(w, e.pid, e.action, job);
    assert Inside(w'.pcs[e.pid]) && Inside(w'.pcs[w.last.value]) && w.last.value != e.pid;
  }

  /** At most one caller is inside at every moment of a run exactly when no caller touches a lock file
      that appeared after its test: that the two are not one step is the only way to go wrong. */
  lemma ExclusiveIffRaceFree(run: seq<Event>, job: Job)
    ensures AlwaysOneInside(Initial(job), run, job) <==> RaceFree(Initial(job), run, job)
  {
    ExclusiveFrom(Initial(job), run, job);
  }

  lemma {:induction false} ExclusiveFrom(w: World, run: seq<Event>, job: Job)
    requires |w.pcs| == |job.writes| && Exclusive(w) && LockMeansInside(w)
    ensures AlwaysOneInside(w, run, job) <==> RaceFree(w, run, job)
    decreases |run|
  {
    AlwaysOneInsideNext(w, run, job);
    if run != [] {
      var w' := Step(w, run[0].pid, run[0].action, job);
      if Races(w, run[0]) {
        RaceLetsTwoIn(w, run[0], job);
        AlwaysOneInsideNext(w', run[1..], job);
      } else {
        StepExclusive(w, run[0].pid, run[0].action, job);
        StepLockMeansInside(w, run[0], job);
        ExclusiveFrom(w', run[1..], job);
      }
    }
  }

  // ----- where the promise of the documentation stops

  lemma ExecFrom(w: World, run: seq<Event>, k: nat, job: Job)
    requires |w.pcs| == |job.writes| && k < |run|
    ensures Exec(w, run[k..], job) == Exec(Step(w, run[k].pid, run[k].action, job), run[k + 1..], job)
    ensures RaceFree(w, run[k..], job) <==>
            !Races(w, run[k]) && RaceFree(Step(w, run[k].pid, run[k].action, job), run[k + 1..], job)
  {
    assert run[k..][1..] == run[k + 1..];
  }

  ghost predicate CrashLeaves(run: seq<Event>, job: Job, done: nat)
    requires |job.writes| == 1
  {
    RaceFree(Initial(job), run, job) && Exec(Initial(job), run, job).pcs[0] == Dead(done)
  }

  /** "All written or none" holds at every crash point exactly when at most one file is requested: the
      files are replaced one by one, so with two or more a crash can fall between two renames. */
  lemma AllOrNoneIffOneFile(job: Job)
    requires |job.writes| == 1
    ensures (forall run: seq<Event>, done: nat :: CrashLeaves(run, job, done) ==> done == 0 || done == |job.writes[0]|)
        <==> |job.writes[0]| <= 1
  {
    if |job.writes[0]| <= 1 {
      forall run, done | CrashLeaves(run, job, done) ensures done == 0 || done == |job.writes[0]| {
        ExecInv(Initial(job), run, job);
        assert Progress(Exec(Initial(job), run, job).pcs[0]) == done;
      }
    } else {
      CrashAfterOne(job);
    }
  }

  /** How many of the four texts a call brings. */
  function Brought(a: Args): nat
  {
    (if a.handoff != "" then 1 else 0) + (if a.backlog != "" then 1 else 0)
    + (if a.state.Some? then 1 else 0) + (if a.worklog != "" then 1 else 0)
  }

  /** So `ingest_session_atomic` writes all or none, whenever it is killed, exactly when it is called with
      at most one of handoff, backlog, state and index. */
  lemma IngestIsAtomicIff(a: Args, files: map<Slot, string>, partials: map<Slot, string>)
    ensures var job := IngestJob([a], files, partials);
            (forall run: seq<Event>, done: nat :: CrashLeaves(run, job, done) ==> done == 0 || done == Brought(a))
            <==> Brought(a) <= 1
  {
    AllOrNoneIffOneFile(IngestJob([a], files, partials));
  }

  lemma CrashAfterOne(job: Job)
    requires |job.writes| == 1 && |job.writes[0]| >= 1
    ensures exists run :: CrashLeaves(run, job, 1)
  {
    var run := [Event(0, Test), Event(0, Touch), Event(0, OpenPartial), Event(0, FinishPartial),
                Event(0, Rename), Event(0, Crash)];
    assert run[0..] == run;
    var w0 := Initial(job);
    ExecFrom(w0, run, 0, job);
    var w1 := Step(w0, 0, Test, job);
    ExecFrom(w1, run, 1, job);
    WriteOneAndDie(Step(w1, 0, Touch, job), run, job);
    assert CrashLeaves(run, job, 1);
  }

  lemma WriteOneAndDie(w: World, run: seq<Event>, job: Job)
    requires |w.pcs| == |job.writes| == 1 && |job.writes[0]| >= 1 && w.pcs[0] == Holding(0)
    requires |run| == 6
             && run[2..] == [Event(0, OpenPartial), Event(0, FinishPartial), Event(0, Rename), Event(0, Crash)]
    ensures RaceFree(w, run[2..], job) && Exec(w, run[2..], job).pcs[0] == Dead(1)
  {
    assert forall k :: 2 <= k < 6 ==> run[k] == run[2..][k - 2];
    ExecFrom(w, run, 2, job);
    var w3 := Step(w, 0, OpenPartial, job);
    ExecFrom(w3, run, 3, job);
    var w4 := Step(w3, 0, FinishPartial, job);
    ExecFrom(w4, run, 4, job);
    var w5 := Step(w4, 0, Rename, job);
    ExecFrom(w5, run, 5, job);
    assert run[6..] == [];
  }

  ghost predicate TwoInside(run: seq<Event>, job: Job)
    requires |job.writes| == 2
  {
    var w := Exec(Initial(job), run, job); Active(w.pcs[0]) && Active(w.pcs[1])
  }

  /** Test and touch are not atomic: two callers can both find no lock and both go in. */
  lemma TestThenTouchLetsTwoIn(job: Job)
    requires |job.writes| == 2
    ensures exists run :: TwoInside(run, job)
  {
    var run := [Event(0, Test), Event(1, Test), Event(0, Touch), Event(1, Touch)];
    assert run[0..] == run && run[4..] == [];
    var w0 := Initial(job);
    ExecFrom(w0, run, 0, job);
    var w1 := Step(w0, 0, Test, job);
    ExecFrom(w1, run, 1, job);
    var w2 := Step(w1, 1, Test, job);
    ExecFrom(w2, run, 2, job);
    var w3 := Step(w2, 0, Touch, job);
    ExecFrom(w3, run, 3, job);
    assert TwoInside(run, job);
  }

  // ----- one call, as the program runs it

  /** `IngestLockedError`, the written files by name, or another exception. */
  datatype Result = Locked | Written(slots: seq<Slot>) | Raised

  function SlotsOf(writes: seq<Write>): seq<Slot>
  {
    seq(|writes|, i requires 0 <= i < |writes| => writes[i].slot)
  }

  /** What goes wrong inside the `try`: the backlog directory cannot be made, or a write raises once that
      many characters are in its partial file. */
  datatype Trouble = Trouble(noDirectory: bool, inWrite: Write -> Option<nat>)

  /** How many writes complete. */
  function Completed(writes: seq<Write>, inWrite: Write -> Option<nat>): (k: nat)
    ensures k <= |writes|
    ensures forall i :: 0 <= i < k ==> inWrite(writes[i]).None?
    ensures k < |writes| ==> inWrite(writes[k]).Some?
  {
    if writes == [] || inWrite(writes[0]).Some? then 0 else 1 + Completed(writes[1..], inWrite)
  }

  ghost predicate NoneIn(done: seq<Write>, inWrite: Write -> Option<nat>)
  {
    forall i :: 0 <= i < |done| ==> inWrite(done[i]).None?
  }

  /** The first write that raises is the first that does not complete. */
  lemma {:induction false} RaisesAt(done: seq<Write>, now: Write, all: seq<Write>, inWrite: Write -> Option<nat>)
    requires done + [now] <= all && inWrite(now).Some?
    requires NoneIn(done, inWrite)
    ensures Completed(all, inWrite) == |done| < |all| && all[..|done|] == done
  {
    assert all[|done|] == now;
    if done != [] {
      assert all[0] == done[0];
      RaisesAt(done[1..], now, all[1..], inWrite);
    }
  }

  lemma {:induction false} NoneRaises(done: seq<Write>, inWrite: Write -> Option<nat>)
    requires NoneIn(done, inWrite)
    ensures Completed(done, inWrite) == |done| && done[..|done|] == done
  {
    if done != [] { NoneRaises(done[1..], inWrite); }
  }

  class Memory {
    var lock: bool
    var files: map<Slot, string>
    var partials: map<Slot, string>

    constructor (files: map<Slot, string>)
      ensures !lock && this.files == files && partials == map[]
    {
      lock, partials := false, map[];
      this.files := files;
    }

    /** `_atomic_write`: write the ".partial" file, then rename it over the target. */
    method WriteThrough(w: Write, trouble: Option<nat>) returns (raised: bool)
      modifies this`files, this`partials
      ensures raised <==> trouble.Some?
      ensures files == if raised then old(files) else old(files)[w.slot := w.content]
      ensures raised ==> w.slot in partials && partials[w.slot] <= w.content
      ensures partials - {w.slot} == old(partials) - {w.slot}
      ensures !raised ==> w.slot !in partials
    {
      if trouble.Some? {
        partials := partials[w.slot := w.content[..if trouble.value < |w.content| then trouble.value else |w.content|]];
        return true;
      }
      partials := partials[w.slot := w.content];
      files := files[w.slot := partials[w.slot]];
      partials := partials - {w.slot};
      raised := false;
    }

    /** One `if` of the body: of all the writes, `done` are behind it, and `now` is what it asks for. */
    method WriteIfAsked(ghost was: map<Slot, string>, ghost done: seq<Write>, now: seq<Write>, ghost all: seq<Write>,
                        inWrite: Write -> Option<nat>)
      returns (raised: bool)
      requires |now| <= 1 && done + now <= all && files == Applied(was, done) && NoneIn(done, inWrite)
      modifies this`files, this`partials
      ensures raised ==> var k := Completed(all, inWrite); k < |all| && files == Applied(was, all[..k])
      ensures !raised ==> files == Applied(was, done + now) && NoneIn(done + now, inWrite)
    {
      if now == [] {
        assert done + now == done;
        return false;
      }
      raised := WriteThrough(now[0], inWrite(now[0]));
      assert now == [now[0]];
      AppliedOneMore(was, done, now[0]);
      if raised {
        RaisesAt(done, now[0], all, inWrite);
      }
    }

    /** The four `if`s, one after another, up to the first that raises. */
    method WriteFour(h: seq<Write>, b: seq<Write>, s: seq<Write>, w: seq<Write>, inWrite: Write -> Option<nat>)
      returns (raised: bool)
      requires |h| <= 1 && |b| <= 1 && |s| <= 1 && |w| <= 1
      modifies this`files, this`partials
      ensures var writes := h + b + s + w; var k := Completed(writes, inWrite);
              files == Applied(old(files), writes[..k]) && (raised <==> k < |writes|)
    {
      ghost var was, writes := files, h + b + s + w;
      ghost var none: seq<Write> := [];
      assert none + h == h && h <= writes && h + b <= writes && h + b + s <= writes;
      raised := WriteIfAsked(was, none, h, writes, inWrite);
      if raised { return; }
      raised := WriteIfAsked(was, h, b, writes, inWrite);
      if raised { return; }
      raised := WriteIfAsked(was, h + b, s, writes, inWrite);
      if raised { return; }
      raised := WriteIfAsked(was, h + b + s, w, writes, inWrite);
      if raised { return; }
      NoneRaises(writes, inWrite);
    }

    /** The `try` block. */
    method WriteAll(a: Args, trouble: Trouble) returns (r: Result)
      modifies this`files, this`partials
      ensures var writes := Requested(a);
              var k := if trouble.noDirectory then 0 else Completed(writes, trouble.inWrite);
              && files == Applied(old(files), writes[..k])
              && r == if !trouble.noDirectory && k == |writes| then Written(SlotsOf(writes)) else Raised
    {
      if trouble.noDirectory {
        return Raised;
      }
      var h, b, s, w := OfSlot(a, Handoff), OfSlot(a, Backlog(a.day)), OfSlot(a, State), OfSlot(a, Worklog);
      assert h + b + s + w == Requested(a);
      var raised := WriteFour(h, b, s, w, trouble.inWrite);
      r := if raised then Raised else Written(SlotsOf(h + b + s + w));
    }

    /** A call that finds the lock changes nothing. Any other call completes its writes in order up to the
        first that raises, and releases the lock in either case. */
    method IngestSessionAtomic(a: Args, trouble: Trouble) returns (r: Result)
      modifies this
      ensures old(lock) ==> r == Locked && lock && files == old(files) && partials == old(partials)
      ensures !old(lock) ==>
                var writes := Requested(a);
                var k := if trouble.noDirectory then 0 else Completed(writes, trouble.inWrite);
                && !lock && files == Applied(old(files), writes[..k])
                && r == if !trouble.noDirectory && k == |writes| then Written(SlotsOf(writes)) else Raised
      ensures r.Written? ==> NewUpTo(files, old(files), a, 4)
      ensures r.Raised? ==> exists cut: nat :: cut <= 4 && NewUpTo(files, old(files), a, cut)
    {
      if lock {
        return Locked;
      }
      lock := true;
      r := WriteAll(a, trouble);
      lock := false;
      ghost var k := if trouble.noDirectory then 0 else Completed(Requested(a), trouble.inWrite);
      ghost var cut := PrefixIsParts(a, k);
      PartsAreNew(old(files), a, cut);
      if r.Written? {
        assert Requested(a)[..|Requested(a)|] == Requested(a);
        PartsAreNew(old(files), a, 4);
      }
    }
  }
}
