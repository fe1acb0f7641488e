/** `atomic_write_text` and `atomic_write_json`: any number of writers on one path, with partial
    writes, exceptions and process crashes between any two steps. */
module AtomicWrite {
  import opened Options

  type Path = string

  /** Where a writer stands, with its temporary file as long as it is responsible for one.
      `Raised` and `Dead` carry the temporary file they leave behind, if any. */
  datatype Pc =
    | Start
    | Writing(tmp: Path, written: nat)
    | Closed(tmp: Path)
    | Failing(tmp: Path)
    | Returned
    | Raised(left: Option<Path>)
    | Dead(left: Option<Path>)

  /** `MakeTemp(t)`: mkstemp returns the name `t`. `WriteSome(n)`: some of the buffered text reaches the
      file. `CloseFile`: the rest does, fsync is tried, the file is closed. `Fail`: any exception inside
      the `try`. `Kill`: the process dies, or is interrupted outside what `except Exception` catches. */
  datatype Action =
    | MakeTemp(t: Path) | MakeTempFails | WriteSome(n: nat) | CloseFile | Replace
    | Fail | Unlink | UnlinkFails | Kill

  /** `order` records, for the proofs, the writers that reached the rename. */
  datatype World = World(files: map<Path, string>, pcs: seq<Pc>, order: seq<nat>)

  datatype Job = Job(target: Path, bodies: seq<string>, initial: map<Path, string>)

  function Initial(job: Job): World
  {
    World(job.initial, seq(|job.bodies|, _ => Start), [])
  }

  function Move(w: World, p: nat, pc: Pc): World
    requires p < |w.pcs|
  {
    w.(pcs := w.pcs[p := pc])
  }

  function TempOf(pc: Pc): Option<Path>
  {
    match pc
    case Writing(t, _) => Some(t)
    case Closed(t) => Some(t)
    case Failing(t) => Some(t)
    case _ => None
  }

  /** One step of writer `p`; an action that is not possible there changes nothing. */
  function Step(w: World, p: nat, a: Action, job: Job): (w': World)
    requires |w.pcs| == |job.bodies|
    ensures |w'.pcs| == |w.pcs|
  {
    if p >= |w.pcs| then w
    else
      var pc := w.pcs[p];
      match a
      case MakeTemp(t) =>
        if pc.Start? && t !in w.files && t != job.target
        then Move(w, p, Writing(t, 0)).(files := w.files[t := ""]) else w
      case MakeTempFails => if pc.Start? then Move(w, p, Raised(None)) else w
      case WriteSome(n) =>
        if pc.Writing? && pc.written <= n <= |job.bodies[p]|
        then Move(w, p, Writing(pc.tmp, n)).(files := w.files[pc.tmp := job.bodies[p][..n]]) else w
      case CloseFile =>
        if pc.Writing? then Move(w, p, Closed(pc.tmp)).(files := w.files[pc.tmp := job.bodies[p]]) else w
      case Replace =>
        if pc.Closed? && pc.tmp in w.files
        then Move(w, p, Returned).(files := w.files[job.target := w.files[pc.tmp]] - {pc.tmp}, order := w.order + [p])
        else w
      case Fail => if pc.Writing? || pc.Closed? then Move(w, p, Failing(pc.tmp)) else w
      case Unlink => if pc.Failing? then Move(w, p, Raised(None)).(files := w.files - {pc.tmp}) else w
      case UnlinkFails => if pc.Failing? then Move(w, p, Raised(Some(pc.tmp))) else w
      case Kill =>
        if pc.Returned? || pc.Raised? || pc.Dead? then w else Move(w, p, Dead(TempOf(pc)))
  }

  datatype Event = Event(pid: nat, action: Action)

  function Exec(w: World, run: seq<Event>, job: Job): (w': World)
    requires |w.pcs| == |job.bodies|
    ensures |w'.pcs| == |w.pcs|
    decreases |run|
  {
    if run == [] then w else Exec(Step(w, run[0].pid, run[0].action, job), run[1..], job)
  }

  // ----- the invariant

  /** The temporary file a writer is using, or has left behind. */
  function Owned(pc: Pc): Option<Path>
  {
    if pc.Raised? || pc.Dead? then pc.left else TempOf(pc)
  }

  ghost predicate TempsApart(w: World, job: Job)
  {
    && (forall p :: 0 <= p < |w.pcs| && Owned(w.pcs[p]).Some? ==>
          && Owned(w.pcs[p]).value in w.files && Owned(w.pcs[p]).value != job.target
          && Owned(w.pcs[p]).value !in job.initial)
    && (forall p, q :: 0 <= p < q < |w.pcs| && Owned(w.pcs[p]).Some? ==> Owned(w.pcs[p]) != Owned(w.pcs[q]))
  }

  ghost predicate ClosedWhole(w: World, job: Job)
    requires |w.pcs| == |job.bodies|
  {
    forall p :: 0 <= p < |w.pcs| && w.pcs[p].Closed? && w.pcs[p].tmp in w.files ==>
      w.files[w.pcs[p].tmp] == job.bodies[p]
  }

  /** The target is what the last rename made it. */
  ghost predicate TargetWhole(w: World, job: Job)
  {
    if w.order == [] then
      (job.target in w.files <==> job.target in job.initial)
      && (job.target in job.initial ==> w.files[job.target] == job.initial[job.target])
    else
      var p := w.order[|w.order| - 1];
      p < |job.bodies| && job.target in w.files && w.files[job.target] == job.bodies[p]
  }

  /** Files that are neither the target nor somebody's temporary file are the ones there were, as they were. */
  ghost predicate OthersUntouched(w: World, job: Job)
  {
    && (forall f :: f in job.initial && f != job.target ==> f in w.files && w.files[f] == job.initial[f])
    && (forall f :: f in w.files && f != job.target && f !in job.initial ==>
          exists p :: 0 <= p < |w.pcs| && Owned(w.pcs[p]) == Some(f))
  }

  ghost predicate OrderTrue(w: World)
  {
    && (forall k :: 0 <= k < |w.order| ==> w.order[k] < |w.pcs| && w.pcs[w.order[k]].Returned?)
    && (forall p :: 0 <= p < |w.pcs| && w.pcs[p].Returned? ==> p in w.order)
    && (forall j, k :: 0 <= j < k < |w.order| ==> w.order[j] != w.order[k])
  }

  ghost predicate Inv(w: World, job: Job)
    requires |w.pcs| == |job.bodies|
  {
    TempsApart(w, job) && ClosedWhole(w, job) && TargetWhole(w, job) && OthersUntouched(w, job) && OrderTrue(w)
  }

  lemma InitialInv(job: Job)
    ensures Inv(Initial(job), job)
  {
  }

  lemma StepInv(w: World, p: nat, a: Action, job: Job)
    requires |w.pcs| == |job.bodies| && Inv(w, job)
    ensures Inv(Step(w, p, a, job), job)
  {
    StepTemps(w, p, a, job);
    StepTarget(w, p, a, job);
    StepOthers(w, p, a, job);
    StepOrder(w, p, a, job);
  }

  /** Only writer `p` moves. */
  ghost predicate OnlyMoves(w: World, w': World, p: nat)
  {
    p < |w.pcs| && |w'.pcs| == |w.pcs| && forall q :: 0 <= q < |w.pcs| && q != p ==> w'.pcs[q] == w.pcs[q]
  }

  lemma StepTemps(w: World, p: nat, a: Action, job: Job)
    requires |w.pcs| == |job.bodies| && Inv(w, job)
    ensures var w' := Step(w, p, a, job); TempsApart(w', job) && ClosedWhole(w', job)
  {
    var w' := Step(w, p, a, job);
    if p < |w.pcs| && w' != w {
      assert OnlyMoves(w, w', p);
      if a.MakeTemp? {
        TempAcquired(w, w', p, a.t, job);
      } else if a.Replace? || a.Unlink? {
        TempReleased(w, w', p, Owned(w.pcs[p]).value, job);
      } else {
        TempKept(w, w', p, job);
      }
    }
  }

  lemma TempAcquired(w: World, w': World, p: nat, t: Path, job: Job)
    requires |w.pcs| == |job.bodies| && OnlyMoves(w, w', p) && Inv(w, job)
    requires t !in w.files && t != job.target && w'.files == w.files[t := ""] && w'.pcs[p] == Writing(t, 0)
    ensures TempsApart(w', job) && ClosedWhole(w', job)
  {
    forall q | 0 <= q < |w.pcs| && q != p && Owned(w.pcs[q]).Some? ensures Owned(w.pcs[q]).value != t { }
  }

  lemma TempReleased(w: World, w': World, p: nat, t: Path, job: Job)
    requires |w.pcs| == |job.bodies| && OnlyMoves(w, w', p) && TempsApart(w, job) && ClosedWhole(w, job)
    requires Owned(w.pcs[p]) == Some(t) && Owned(w'.pcs[p]) == None
    requires forall f :: f != t && f != job.target && f in w.files ==> f in w'.files && w'.files[f] == w.files[f]
    ensures TempsApart(w', job) && ClosedWhole(w', job)
  {
    forall q | 0 <= q < |w.pcs| && q != p && Owned(w.pcs[q]).Some? ensures Owned(w.pcs[q]).value != t {
      assert Owned(w.pcs[p]) != Owned(w.pcs[q]);
    }
    forall q | 0 <= q < |w'.pcs| && w'.pcs[q].Closed? && w'.pcs[q].tmp in w'.files
      ensures w'.files[w'.pcs[q].tmp] == job.bodies[q]
    {
      assert q != p && Owned(w.pcs[q]) == Some(w.pcs[q].tmp);
    }
  }

  lemma TempKept(w: World, w': World, p: nat, job: Job)
    requires |w.pcs| == |job.bodies| && OnlyMoves(w, w', p) && TempsApart(w, job) && ClosedWhole(w, job)
    requires Owned(w'.pcs[p]) == Owned(w.pcs[p])
    requires forall f :: f in w.files ==> f in w'.files && (Some(f) != Owned(w.pcs[p]) ==> w'.files[f] == w.files[f])
    requires w'.pcs[p].Closed? && w'.pcs[p].tmp in w'.files ==> w'.files[w'.pcs[p].tmp] == job.bodies[p]
    ensures TempsApart(w', job) && ClosedWhole(w', job)
  {
    forall q | 0 <= q < |w.pcs| && q != p && Owned(w.pcs[q]).Some? ensures Owned(w.pcs[q]) != Owned(w.pcs[p]) { }
    forall q | 0 <= q < |w'.pcs| && w'.pcs[q].Closed? && w'.pcs[q].tmp in w'.files
      ensures w'.files[w'.pcs[q].tmp] == job.bodies[q]
    {
      if q != p { assert Owned(w.pcs[q]) == Some(w.pcs[q].tmp); }
    }
  }

  lemma StepTarget(w: World, p: nat, a: Action, job: Job)
    requires |w.pcs| == |job.bodies| && Inv(w, job)
    ensures TargetWhole(Step(w, p, a, job), job)
  {
  }

  lemma StepOthers(w: World, p: nat, a: Action, job: Job)
    requires |w.pcs| == |job.bodies| && Inv(w, job)
    ensures OthersUntouched(Step(w, p, a, job), job)
  {
    var w' := Step(w, p, a, job);
    if p < |w.pcs| && w' != w {
      forall f | f in job.initial && f != job.target ensures f in w'.files && w'.files[f] == job.initial[f] {
        assert Owned(w.pcs[p]) != Some(f);
      }
      forall f | f in w'.files && f != job.target && f !in job.initial
        ensures exists q :: 0 <= q < |w'.pcs| && Owned(w'.pcs[q]) == Some(f)
      {
        OwnerOf(w, p, a, job, f);
      }
    }
  }

  /** A file that the writer owned and that is still there is still its own. */
  lemma StillOwned(w: World, p: nat, a: Action, job: Job, f: Path)
    requires |w.pcs| == |job.bodies| && p < |w.pcs| && Owned(w.pcs[p]) == Some(f) && f != job.target
    requires f in Step(w, p, a, job).files
    ensures Owned(Step(w, p, a, job).pcs[p]) == Some(f)
  {
  }

  /** A file that appears, other than the target, is the writer's. */
  lemma NewlyOwned(w: World, p: nat, a: Action, job: Job, f: Path)
    requires |w.pcs| == |job.bodies| && p < |w.pcs| && f !in w.files && f != job.target
    requires f in Step(w, p, a, job).files
    ensures Owned(Step(w, p, a, job).pcs[p]) == Some(f)
  {
  }

  lemma OwnerOf(w: World, p: nat, a: Action, job: Job, f: Path)
    requires |w.pcs| == |job.bodies| && Inv(w, job) && p < |w.pcs|
    requires f in Step(w, p, a, job).files && f != job.target && f !in job.initial
    ensures exists q :: 0 <= q < |w.pcs| && Owned(Step(w, p, a, job).pcs[q]) == Some(f)
  {
    var w' := Step(w, p, a, job);
    if f in w.files {
      var q :| 0 <= q < |w.pcs| && Owned(w.pcs[q]) == Some(f);
      if q == p { StillOwned(w, p, a, job, f); }
      assert Owned(w'.pcs[q]) == Some(f);
    } else {
      NewlyOwned(w, p, a, job, f);
    }
  }

  lemma StepOrder(w: World, p: nat, a: Action, job: Job)
    requires |w.pcs| == |job.bodies| && OrderTrue(w)
    ensures OrderTrue(Step(w, p, a, job))
  {
  }

  lemma {:induction false} ExecInv(w: World, run: seq<Event>, job: Job)
    requires |w.pcs| == |job.bodies| && Inv(w, job)
    ensures Inv(Exec(w, run, job), job)
    decreases |run|
  {
    if run != [] {
      StepInv(w, run[0].pid, run[0].action, job);
      ExecInv(Step(w, run[0].pid, run[0].action, job), run[1..], job);
    }
  }

  // ----- the promises

  /** At every moment of every run, crashes included, the target is its initial content, or the complete
      body of a writer that returned: the last one to rename. No other file that existed changes. */
  lemma TargetAlwaysWhole(run: seq<Event>, job: Job)
    ensures var w := Exec(Initial(job), run, job);
            && TargetWhole(w, job) && OrderTrue(w)
            && (forall f :: f in job.initial && f != job.target ==> f in w.files && w.files[f] == job.initial[f])
  {
    InitialInv(job);
    ExecInv(Initial(job), run, job);
  }

  ghost predicate Settled(w: World)
  {
    forall p :: 0 <= p < |w.pcs| ==> w.pcs[p].Returned? || w.pcs[p].Raised? || w.pcs[p].Dead?
  }

  /** Once every writer has returned, raised or died, the only files that were not there before are the
      target and the temporary files of writers that died or could not unlink theirs. */
  lemma OnlyTheDeadLeaveTemps(run: seq<Event>, job: Job, f: Path)
    requires var w := Exec(Initial(job), run, job); Settled(w)
    ensures var w := Exec(Initial(job), run, job);
            (f in w.files && f !in job.initial && f != job.target)
            <==> (exists p :: 0 <= p < |w.pcs| && (w.pcs[p] == Raised(Some(f)) || w.pcs[p] == Dead(Some(f))))
  {
    InitialInv(job);
    ExecInv(Initial(job), run, job);
    var w := Exec(Initial(job), run, job);
    if f in w.files && f !in job.initial && f != job.target {
      var p :| 0 <= p < |w.pcs| && Owned(w.pcs[p]) == Some(f);
      assert w.pcs[p] == Raised(Some(f)) || w.pcs[p] == Dead(Some(f));
    }
    if p :| 0 <= p < |w.pcs| && (w.pcs[p] == Raised(Some(f)) || w.pcs[p] == Dead(Some(f))) {
      assert Owned(w.pcs[p]) == Some(f);
    }
  }

  /** With nobody killed and no failing unlink, the directory ends as it began, but for the target
      holding the body of the last writer that renamed. */
  lemma CleanFinish(run: seq<Event>, job: Job)
    requires forall i :: 0 <= i < |run| ==> run[i].action != Kill && run[i].action != UnlinkFails
    requires Settled(Exec(Initial(job), run, job))
    ensures var w := Exec(Initial(job), run, job);
            if w.order == [] then w.files == job.initial
            else w.order[|w.order| - 1] < |job.bodies|
                 && w.files == job.initial[job.target := job.bodies[w.order[|w.order| - 1]]]
  {
    InitialInv(job);
    ExecInv(Initial(job), run, job);
    NothingLeft(Initial(job), run, job);
    SettledFiles(Exec(Initial(job), run, job), job);
  }

  lemma SettledFiles(w: World, job: Job)
    requires |w.pcs| == |job.bodies| && Inv(w, job) && Settled(w) && NobodyLeft(w)
    ensures if w.order == [] then w.files == job.initial
            else w.order[|w.order| - 1] < |job.bodies|
                 && w.files == job.initial[job.target := job.bodies[w.order[|w.order| - 1]]]
  {
    assert forall p :: 0 <= p < |w.pcs| ==> Owned(w.pcs[p]).None?;
    assert forall f :: f in w.files ==> f in job.initial || f == job.target;
  }

  ghost predicate NobodyLeft(w: World)
  {
    forall p :: 0 <= p < |w.pcs| ==> !w.pcs[p].Dead? && (w.pcs[p].Raised? ==> w.pcs[p].left.None?)
  }

  lemma {:induction false} NothingLeft(w: World, run: seq<Event>, job: Job)
    requires |w.pcs| == |job.bodies| && NobodyLeft(w)
    requires forall i :: 0 <= i < |run| ==> run[i].action != Kill && run[i].action != UnlinkFails
    ensures NobodyLeft(Exec(w, run, job))
    decreases |run|
  {
    if run != [] {
      NothingLeft(Step(w, run[0].pid, run[0].action, job), run[1..], job);
    }
  }

  // ----- one call, as the program runs it

  /** Where an exception strikes, if anywhere. */
  datatype Fault = NoFault | InMkstemp | InWrite(n: nat) | InReplace

  class Directory {
    var files: map<Path, string>

    constructor (files: map<Path, string>)
      ensures this.files == files
    {
      this.files := files;
    }

    /** `tmp` is the fresh name mkstemp picks, if it succeeds. */
    method AtomicWriteText(target: Path, body: string, tmp: Path, fault: Fault, unlinkFails: bool)
      returns (raised: bool)
      requires tmp !in files && tmp != target
      modifies this
      ensures raised <==> !fault.NoFault?
      ensures !raised ==> files == old(files)[target := body]
      ensures raised && (fault.InMkstemp? || !unlinkFails) ==> files == old(files)
      ensures raised && !fault.InMkstemp? && unlinkFails ==>
                tmp in files && files[tmp] <= body && files - {tmp} == old(files)
    {
      if fault.InMkstemp? {
        return true;
      }
      files := files[tmp := ""];
      raised := false;
      if fault.InWrite? {
        files := files[tmp := body[..if fault.n < |body| then fault.n else |body|]];
        raised := true;
      } else {
        files := files[tmp := body];
        if fault.InReplace? {
          raised := true;
        } else {
          files := files[target := files[tmp]] - {tmp};
        }
      }
      if raised && !unlinkFails {
        files := files - {tmp};
      }
    }
  }
}
