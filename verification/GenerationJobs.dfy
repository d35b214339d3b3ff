/** Export generation on top of the job queue: every statement of both, for jobs that name their exports. */
module GenerationJobs {
  import opened Graphs
  import opened Faults
  import J = JobQueue
  import Q = QueueProtocol
  import X = ExportRows
  import E = ExportProtocol
  import opened ExportWorkers
  import opened JobAttempts

  // A generator carries the name of its worker.
  datatype System = System(jobs: Jobs, exports: E.System)

  datatype Event =
    | Create(job: Uuid, exportId: Uuid, tree: Uuid, format: string, key: string, at: int)
    | OnQueue(step: Q.Event)
    | Acquire(worker: string, fault: Fault)
    | Put(worker: string, body: X.Body, confirmed: bool)
    | Complete(worker: string, expiresAt: int, confirmed: bool)
    | Recheck(worker: string)
    | DeleteConflicting(worker: string, fault: Fault)
    | GiveUp(worker: string, mark: Fault)
    | Refuse(worker: string, mark: Fault)
    | FindNoHandler(worker: string)
    | Panic(worker: string)
    | Elsewhere(e: E.Event)

  const ATTEMPTS := 5

  function GenerateRequest(job: Uuid, key: string, at: int): J.Request {
    J.Request(job, "export.generate", key, key, ATTEMPTS, at, at)
  }

  // One statement of the generator of w, after which its run stands at `a`.
  function Generated(sha: X.Body -> string, s: System, w: string, e: E.Event, a: Attempt): System {
    System(Advance(s.jobs, w, a), E.Apply(sha, s.exports, e))
  }

  predicate CanGiveUp(g: E.Generator) {
    g.Rendering? || g.Giving? || g.Uploaded? || g.Unmatched?
  }

  // Users and cleaners.
  predicate NotByGenerators(e: E.Event) {
    e.ExpireByUser? || e.Reserve? || e.PickExpired? || e.DeleteObject? || e.ClearResult?
  }

  function Acquired(sha: X.Body -> string, s: System, w: string, fault: Fault): System {
    if !Running(s.jobs, w, Pending) then s
    else if fault == Fails then s.(jobs := Advance(s.jobs, w, Ended(NotAcquired)))
    else
      var acquire := E.AcquireExport(w, TargetOf(s.jobs, w), fault == Works);
      Generated(sha, s, w, acquire,
        if fault == LosesAnswer then Ended(NotAcquired)
        else if E.GeneratorOf(E.Apply(sha, s.exports, acquire), w) == E.Idle then Ended(Done)
        else Busy)
  }

  function Stored(sha: X.Body -> string, s: System, w: string, put: E.Event): System {
    if !Running(s.jobs, w, Busy) then s else Generated(sha, s, w, put, Busy)
  }

  // Recording the result, or looking at the export again after an update that did not apply.
  function Recorded(sha: X.Body -> string, s: System, w: string, e: E.Event): System {
    if !Running(s.jobs, w, Busy) then s else
    Generated(sha, s, w, e, if E.GeneratorOf(E.Apply(sha, s.exports, e), w) == E.Idle then Ended(Done) else Busy)
  }

  function Deleted(sha: X.Body -> string, s: System, w: string, fault: Fault): System {
    if !Running(s.jobs, w, Busy) || !E.GeneratorOf(s.exports, w).Conflicted? then s else
    Generated(sha, s, w, if fault == Fails then E.Crash(w) else E.DeleteConflicting(w),
              Ended(if fault == Works then Done else NotDeleted))
  }

  function GivenUp(sha: X.Body -> string, s: System, w: string, mark: Fault): System {
    if !Running(s.jobs, w, Busy) || !CanGiveUp(E.GeneratorOf(s.exports, w)) then s
    else if !LastAttempt(s.jobs, w) then Generated(sha, s, w, E.Crash(w), Ended(Retryable))
    else if mark == Fails then Generated(sha, s, w, E.Crash(w), Ended(NotMarked))
    else Generated(sha, s, w, E.MarkFailed(w), Ended(Marked))
  }

  function Refused(sha: X.Body -> string, s: System, w: string, mark: Fault): System {
    if !Running(s.jobs, w, Busy) || !E.GeneratorOf(s.exports, w).Rendering? then s
    else if mark == Fails then Generated(sha, s, w, E.Crash(w), Ended(NotMarked))
    else
      var x := TargetOf(s.jobs, w);
      var conflict := x in s.exports.rows && s.exports.rows[x].status == X.Completed;
      Generated(sha, s, w, E.MarkFailed(w), Ended(if mark == Works && !conflict then Done else Marked))
  }

  // A panic stops the run at any point, before the export has been acquired or after; no error handling of the generator
  // sees it.
  function AfterPanic(sha: X.Body -> string, s: System, w: string): System {
    if Running(s.jobs, w, Pending) || Running(s.jobs, w, Busy) then Generated(sha, s, w, E.Crash(w), Ended(Panicked)) else s
  }

  function NotHandled(s: System, w: string): System {
    if Running(s.jobs, w, Pending) then s.(jobs := Advance(s.jobs, w, Ended(Unhandled))) else s
  }

  // Creating an export and enqueueing its job are one transaction. Every other event is one statement, on the queue or
  // for the export; the generator's errors follow the faults of its calls. A worker that lets go stops its generator.
  ghost function Apply(sha: X.Body -> string, s: System, e: Event): System {
    match e
    case Create(job, exportId, tree, format, key, at) =>
      var jobs := Submit(s.jobs, GenerateRequest(job, key, at), exportId);
      if exportId in s.exports.rows || jobs == s.jobs then s
      else System(jobs, E.Apply(sha, s.exports, E.CreateExport(exportId, tree, format)))
    case OnQueue(step) =>
      System(JobAttempts.Apply(s.jobs, step), if step.LetGo? then E.Apply(sha, s.exports, E.Crash(step.worker)) else s.exports)
    case Acquire(w, fault) => Acquired(sha, s, w, fault)
    case Put(w, body, confirmed) => Stored(sha, s, w, E.PutResult(w, body, confirmed))
    case Complete(w, expiresAt, confirmed) => Recorded(sha, s, w, E.Complete(w, expiresAt, confirmed))
    case Recheck(w) => Recorded(sha, s, w, E.Recheck(w))
    case DeleteConflicting(w, fault) => Deleted(sha, s, w, fault)
    case GiveUp(w, mark) => GivenUp(sha, s, w, mark)
    case Refuse(w, mark) => Refused(sha, s, w, mark)
    case FindNoHandler(w) => NotHandled(s, w)
    case Panic(w) => AfterPanic(sha, s, w)
    case Elsewhere(other) =>
      if NotByGenerators(other) then s.(exports := E.Apply(sha, s.exports, other)) else s
  }

  // ---- The invariant ----

  // What an attempt in progress, or its answer, says about the export x.
  ghost predicate Agrees(exports: E.System, w: string, x: Uuid, a: Attempt) {
    var g := E.GeneratorOf(exports, w);
    match a
    case Pending => g == E.Idle
    case Busy => g != E.Idle && g.exportId == x
    case Ended(how) => g == E.Idle && (how in {Done, Marked, NotDeleted} ==> Settled(exports, x))
  }

  ghost predicate Inv(sha: X.Body -> string, s: System) {
    && JobAttempts.Inv(s.jobs) && E.Inv(sha, s.exports)
    && (forall j :: j in s.jobs.targetOf ==> s.jobs.targetOf[j] in s.exports.rows)
    && (forall w :: w in s.jobs.attempts ==> Agrees(s.exports, w, TargetOf(s.jobs, w), s.jobs.attempts[w]))
    && (forall w :: w !in s.jobs.attempts ==> E.GeneratorOf(s.exports, w) == E.Idle)
  }

  lemma TargetExists(sha: X.Body -> string, s: System, w: string)
    requires Inv(sha, s) && w in s.jobs.attempts
    ensures TargetOf(s.jobs, w) in s.exports.rows
  {
    assert JobAttempts.AttemptInv(s.jobs, w, s.jobs.attempts[w]);
  }

  // A statement for the export leaves the attempts of other workers as they are.
  lemma AttemptKept(sha: X.Body -> string, s: System, e: E.Event, w: string)
    requires Inv(sha, s) && w in s.jobs.attempts && !By(e, w)
    ensures Agrees(E.Apply(sha, s.exports, e), w, TargetOf(s.jobs, w), s.jobs.attempts[w])
  {
    TargetExists(sha, s, w);
    OthersLeaveGenerator(sha, s.exports, e, w);
    StepKeepsSettled(sha, s.exports, e, TargetOf(s.jobs, w));
  }

  lemma RowsStay(sha: X.Body -> string, s: E.System, e: E.Event)
    requires E.Inv(sha, s)
    ensures s.rows.Keys <= E.Apply(sha, s, e).rows.Keys
  {
    forall x | x in s.rows ensures x in E.Apply(sha, s, e).rows {
      E.StatesMoveForward(sha, s, e, x);
    }
  }

  lemma GeneratedKeepsInv(sha: X.Body -> string, s: System, w: string, e: E.Event, a: Attempt)
    requires Inv(sha, s) && w in s.jobs.attempts && forall v :: v != w ==> !By(e, v)
    requires Agrees(E.Apply(sha, s.exports, e), w, TargetOf(s.jobs, w), a)
    requires a == Ended(Retryable) ==> !LastAttempt(s.jobs, w)
    ensures Inv(sha, Generated(sha, s, w, e, a))
  {
    AdvanceKeepsInv(s.jobs, w, a);
    E.StepKeepsInv(sha, s.exports, e);
    RowsStay(sha, s.exports, e);
    forall v | v != w ensures E.GeneratorOf(E.Apply(sha, s.exports, e), v) == E.GeneratorOf(s.exports, v) {
      OthersLeaveGenerator(sha, s.exports, e, v);
    }
    forall v | v in s.jobs.attempts && v != w
      ensures Agrees(E.Apply(sha, s.exports, e), v, TargetOf(s.jobs, v), s.jobs.attempts[v])
    {
      AttemptKept(sha, s, e, v);
    }
  }

  lemma Acquiring(sha: X.Body -> string, s: E.System, w: string, x: Uuid, confirmed: bool)
    requires E.Inv(sha, s) && E.GeneratorOf(s, w) == E.Idle && x in s.rows
    ensures var next := E.Apply(sha, s, E.AcquireExport(w, x, confirmed));
      if E.GeneratorOf(next, w) == E.Idle then confirmed ==> Settled(next, x)
      else confirmed && E.GeneratorOf(next, w) == E.Rendering(x)
  {
  }

  lemma AcquireKeepsInv(sha: X.Body -> string, s: System, w: string, confirmed: bool)
    requires Inv(sha, s) && Running(s.jobs, w, Pending)
    ensures var acquire := E.AcquireExport(w, TargetOf(s.jobs, w), confirmed);
      Inv(sha, Generated(sha, s, w, acquire,
        if !confirmed then Ended(NotAcquired)
        else if E.GeneratorOf(E.Apply(sha, s.exports, acquire), w) == E.Idle then Ended(Done)
        else Busy))
  {
    assert Agrees(s.exports, w, TargetOf(s.jobs, w), Pending);
    Acquiring(sha, s.exports, w, TargetOf(s.jobs, w), confirmed);
    var acquire := E.AcquireExport(w, TargetOf(s.jobs, w), confirmed);
    GeneratedKeepsInv(sha, s, w, acquire,
      if !confirmed then Ended(NotAcquired)
      else if E.GeneratorOf(E.Apply(sha, s.exports, acquire), w) == E.Idle then Ended(Done)
      else Busy);
  }

  // The attempt moves on, the exports stay as they are.
  lemma AdvanceAlone(sha: X.Body -> string, s: System, w: string, a: Attempt)
    requires Inv(sha, s) && w in s.jobs.attempts && Agrees(s.exports, w, TargetOf(s.jobs, w), a)
    requires a == Ended(Retryable) ==> !LastAttempt(s.jobs, w)
    ensures Inv(sha, s.(jobs := Advance(s.jobs, w, a)))
  {
    AdvanceKeepsInv(s.jobs, w, a);
    var jobs := Advance(s.jobs, w, a);
    forall v | v in jobs.attempts ensures Agrees(s.exports, v, TargetOf(jobs, v), jobs.attempts[v]) {
      assert TargetOf(jobs, v) == TargetOf(s.jobs, v);
    }
  }

  lemma SkippedAcquireKeepsInv(sha: X.Body -> string, s: System, w: string, how: Ending)
    requires Inv(sha, s) && Running(s.jobs, w, Pending) && (how == NotAcquired || how == Unhandled)
    ensures Inv(sha, s.(jobs := Advance(s.jobs, w, Ended(how))))
  {
    assert Agrees(s.exports, w, TargetOf(s.jobs, w), Pending);
    AdvanceAlone(sha, s, w, Ended(how));
  }

  lemma StoredKeepsInv(sha: X.Body -> string, s: System, w: string, body: X.Body, confirmed: bool)
    requires Inv(sha, s)
    ensures Inv(sha, Apply(sha, s, Put(w, body, confirmed)))
  {
    if Running(s.jobs, w, Busy) {
      GeneratedKeepsInv(sha, s, w, E.PutResult(w, body, confirmed), Busy);
    }
  }

  // A generator that becomes idle by recording or rechecking its result leaves a settled export.
  lemma RecordingSettles(sha: X.Body -> string, s: E.System, w: string, e: E.Event)
    requires E.Inv(sha, s) && E.GeneratorOf(s, w) != E.Idle
    requires (e.Complete? || e.Recheck?) && e.g == w
    ensures var next := E.Apply(sha, s, e);
      if E.GeneratorOf(next, w) == E.Idle then Settled(next, E.GeneratorOf(s, w).exportId)
      else E.GeneratorOf(next, w).exportId == E.GeneratorOf(s, w).exportId
  {
    assert E.GeneratorInv(sha, s, E.GeneratorOf(s, w));
  }

  lemma RecordedKeepsInv(sha: X.Body -> string, s: System, w: string, e: E.Event)
    requires Inv(sha, s) && (e.Complete? || e.Recheck?) && e.g == w
    ensures Inv(sha, Recorded(sha, s, w, e))
  {
    if Running(s.jobs, w, Busy) {
      RecordingSettles(sha, s.exports, w, e);
      GeneratedKeepsInv(sha, s, w, e,
        if E.GeneratorOf(E.Apply(sha, s.exports, e), w) == E.Idle then Ended(Done) else Busy);
    }
  }

  lemma CompleteKeepsInv(sha: X.Body -> string, s: System, w: string, expiresAt: int, confirmed: bool)
    requires Inv(sha, s)
    ensures Inv(sha, Apply(sha, s, Complete(w, expiresAt, confirmed)))
  {
    RecordedKeepsInv(sha, s, w, E.Complete(w, expiresAt, confirmed));
  }

  lemma RecheckKeepsInv(sha: X.Body -> string, s: System, w: string)
    requires Inv(sha, s)
    ensures Inv(sha, Apply(sha, s, Recheck(w)))
  {
    RecordedKeepsInv(sha, s, w, E.Recheck(w));
  }

  // Deleting a superseded object, giving up and marking all let go of the export; all but a crash find it settled.
  lemma LettingGo(sha: X.Body -> string, s: E.System, w: string)
    requires E.Inv(sha, s) && E.GeneratorOf(s, w) != E.Idle
    ensures var next := E.Apply(sha, s, E.Crash(w));
      E.GeneratorOf(next, w) == E.Idle && (E.GeneratorOf(s, w).Conflicted? ==> Settled(next, E.GeneratorOf(s, w).exportId))
    ensures E.GeneratorOf(s, w).Conflicted? ==>
      var next := E.Apply(sha, s, E.DeleteConflicting(w));
      E.GeneratorOf(next, w) == E.Idle && Settled(next, E.GeneratorOf(s, w).exportId)
    ensures CanGiveUp(E.GeneratorOf(s, w)) ==>
      var next := E.Apply(sha, s, E.MarkFailed(w));
      E.GeneratorOf(next, w) == E.Idle && Settled(next, E.GeneratorOf(s, w).exportId)
  {
    assert E.GeneratorInv(sha, s, E.GeneratorOf(s, w));
  }

  lemma CrashKeepsInv(sha: X.Body -> string, s: System, w: string, how: Ending)
    requires Inv(sha, s) && Running(s.jobs, w, Busy)
    requires how == NotMarked || (how == Retryable && !LastAttempt(s.jobs, w)) ||
      (how == NotDeleted && E.GeneratorOf(s.exports, w).Conflicted?)
    ensures Inv(sha, Generated(sha, s, w, E.Crash(w), Ended(how)))
  {
    assert Agrees(s.exports, w, TargetOf(s.jobs, w), Busy);
    LettingGo(sha, s.exports, w);
    GeneratedKeepsInv(sha, s, w, E.Crash(w), Ended(how));
  }

  lemma DeletionKeepsInv(sha: X.Body -> string, s: System, w: string, how: Ending)
    requires Inv(sha, s) && Running(s.jobs, w, Busy) && E.GeneratorOf(s.exports, w).Conflicted?
    requires how == Done || how == NotDeleted
    ensures Inv(sha, Generated(sha, s, w, E.DeleteConflicting(w), Ended(how)))
  {
    assert Agrees(s.exports, w, TargetOf(s.jobs, w), Busy);
    LettingGo(sha, s.exports, w);
    GeneratedKeepsInv(sha, s, w, E.DeleteConflicting(w), Ended(how));
  }

  lemma MarkKeepsInv(sha: X.Body -> string, s: System, w: string, how: Ending)
    requires Inv(sha, s) && Running(s.jobs, w, Busy) && CanGiveUp(E.GeneratorOf(s.exports, w))
    requires how == Done || how == Marked
    ensures Inv(sha, Generated(sha, s, w, E.MarkFailed(w), Ended(how)))
  {
    assert Agrees(s.exports, w, TargetOf(s.jobs, w), Busy);
    LettingGo(sha, s.exports, w);
    GeneratedKeepsInv(sha, s, w, E.MarkFailed(w), Ended(how));
  }

  lemma CrashIdles(sha: X.Body -> string, s: E.System, w: string)
    ensures E.GeneratorOf(E.Apply(sha, s, E.Crash(w)), w) == E.Idle
  {
  }

  lemma PanicKeepsInv(sha: X.Body -> string, s: System, w: string)
    requires Inv(sha, s)
    ensures Inv(sha, AfterPanic(sha, s, w))
  {
    if Running(s.jobs, w, Pending) || Running(s.jobs, w, Busy) {
      assert Agrees(s.exports, w, TargetOf(s.jobs, w), s.jobs.attempts[w]);
      CrashIdles(sha, s.exports, w);
      GeneratedKeepsInv(sha, s, w, E.Crash(w), Ended(Panicked));
    }
  }

  lemma NoHandlerKeepsInv(sha: X.Body -> string, s: System, w: string)
    requires Inv(sha, s)
    ensures Inv(sha, Apply(sha, s, FindNoHandler(w)))
  {
    if Running(s.jobs, w, Pending) {
      SkippedAcquireKeepsInv(sha, s, w, Unhandled);
    }
  }

  lemma AcquiredKeepsInv(sha: X.Body -> string, s: System, w: string, fault: Fault)
    requires Inv(sha, s)
    ensures Inv(sha, Apply(sha, s, Acquire(w, fault)))
  {
    if Running(s.jobs, w, Pending) {
      if fault == Fails {
        SkippedAcquireKeepsInv(sha, s, w, NotAcquired);
      } else {
        AcquireKeepsInv(sha, s, w, fault == Works);
      }
    }
  }

  lemma DeletedKeepsInv(sha: X.Body -> string, s: System, w: string, fault: Fault)
    requires Inv(sha, s)
    ensures Inv(sha, Apply(sha, s, DeleteConflicting(w, fault)))
  {
    if Running(s.jobs, w, Busy) && E.GeneratorOf(s.exports, w).Conflicted? {
      if fault == Fails {
        CrashKeepsInv(sha, s, w, NotDeleted);
      } else {
        DeletionKeepsInv(sha, s, w, if fault == Works then Done else NotDeleted);
      }
    }
  }

  lemma GivenUpKeepsInv(sha: X.Body -> string, s: System, w: string, mark: Fault)
    requires Inv(sha, s)
    ensures Inv(sha, Apply(sha, s, GiveUp(w, mark)))
  {
    if Running(s.jobs, w, Busy) && CanGiveUp(E.GeneratorOf(s.exports, w)) {
      if !LastAttempt(s.jobs, w) || mark == Fails {
        CrashKeepsInv(sha, s, w, if LastAttempt(s.jobs, w) then NotMarked else Retryable);
      } else {
        MarkKeepsInv(sha, s, w, Marked);
      }
    }
  }

  lemma RefusedKeepsInv(sha: X.Body -> string, s: System, w: string, mark: Fault)
    requires Inv(sha, s)
    ensures Inv(sha, Apply(sha, s, Refuse(w, mark)))
  {
    if Running(s.jobs, w, Busy) && E.GeneratorOf(s.exports, w).Rendering? {
      if mark == Fails {
        CrashKeepsInv(sha, s, w, NotMarked);
      } else {
        var x := TargetOf(s.jobs, w);
        var conflict := x in s.exports.rows && s.exports.rows[x].status == X.Completed;
        MarkKeepsInv(sha, s, w, if mark == Works && !conflict then Done else Marked);
      }
    }
  }

  // ---- Steps of the queue ----

  lemma QueueStepKeepsInv(sha: X.Body -> string, s: System, step: Q.Event)
    requires Inv(sha, s) && !step.LetGo?
    ensures Inv(sha, s.(jobs := JobAttempts.Apply(s.jobs, step)))
  {
    var jobs := JobAttempts.Apply(s.jobs, step);
    JobAttempts.StepKeepsInv(s.jobs, step);
    TargetsStay(s.jobs, step);
    forall w | w in jobs.attempts ensures Agrees(s.exports, w, TargetOf(jobs, w), jobs.attempts[w]) {
      AttemptsGoOn(s.jobs, step, w);
    }
    forall w | w !in jobs.attempts ensures E.GeneratorOf(s.exports, w) == E.Idle {
      if w in s.jobs.attempts {
        AttemptsEnd(s.jobs, step, w);
      }
    }
  }

  lemma LetGoKeepsOthers(sha: X.Body -> string, s: System, w: string, v: string)
    requires Inv(sha, s) && v in JobAttempts.Apply(s.jobs, Q.LetGo(w)).attempts
    ensures var jobs, exports := JobAttempts.Apply(s.jobs, Q.LetGo(w)), E.Apply(sha, s.exports, E.Crash(w));
      Agrees(exports, v, TargetOf(jobs, v), jobs.attempts[v])
  {
    TargetsStay(s.jobs, Q.LetGo(w));
    AttemptsGoOn(s.jobs, Q.LetGo(w), v);
    AttemptKept(sha, s, E.Crash(w), v);
  }

  lemma LetGoStopsGenerators(sha: X.Body -> string, s: System, w: string, v: string)
    requires Inv(sha, s) && v !in JobAttempts.Apply(s.jobs, Q.LetGo(w)).attempts
    ensures E.GeneratorOf(E.Apply(sha, s.exports, E.Crash(w)), v) == E.Idle
  {
    if v == w {
      CrashIdles(sha, s.exports, w);
    } else {
      OthersLeaveGenerator(sha, s.exports, E.Crash(w), v);
    }
  }

  // A worker that lets go stops its generator with its attempt.
  lemma LetGoLeavesAttempts(sha: X.Body -> string, s: System, w: string)
    requires Inv(sha, s)
    ensures var jobs, exports := JobAttempts.Apply(s.jobs, Q.LetGo(w)), E.Apply(sha, s.exports, E.Crash(w));
      && (forall v :: v in jobs.attempts ==> Agrees(exports, v, TargetOf(jobs, v), jobs.attempts[v]))
      && (forall v :: v !in jobs.attempts ==> E.GeneratorOf(exports, v) == E.Idle)
  {
    var jobs, exports := JobAttempts.Apply(s.jobs, Q.LetGo(w)), E.Apply(sha, s.exports, E.Crash(w));
    forall v | v in jobs.attempts ensures Agrees(exports, v, TargetOf(jobs, v), jobs.attempts[v]) {
      LetGoKeepsOthers(sha, s, w, v);
    }
    forall v | v !in jobs.attempts ensures E.GeneratorOf(exports, v) == E.Idle {
      LetGoStopsGenerators(sha, s, w, v);
    }
  }

  lemma LetGoKeepsInv(sha: X.Body -> string, s: System, w: string)
    requires Inv(sha, s)
    ensures Inv(sha, Apply(sha, s, OnQueue(Q.LetGo(w))))
  {
    JobAttempts.StepKeepsInv(s.jobs, Q.LetGo(w));
    E.StepKeepsInv(sha, s.exports, E.Crash(w));
    RowsStay(sha, s.exports, E.Crash(w));
    TargetsStay(s.jobs, Q.LetGo(w));
    LetGoLeavesAttempts(sha, s, w);
  }

  lemma CreateKeepsInv(sha: X.Body -> string, s: System, e: Event)
    requires Inv(sha, s) && e.Create?
    ensures Inv(sha, Apply(sha, s, e))
  {
    var request, create := GenerateRequest(e.job, e.key, e.at), E.CreateExport(e.exportId, e.tree, e.format);
    SubmitKeepsInv(s.jobs, request, e.exportId);
    SubmitLeavesAttempts(s.jobs, request, e.exportId);
    E.StepKeepsInv(sha, s.exports, create);
    RowsStay(sha, s.exports, create);
    forall w | w in s.jobs.attempts ensures Agrees(E.Apply(sha, s.exports, create), w, TargetOf(s.jobs, w), s.jobs.attempts[w]) {
      AttemptKept(sha, s, create, w);
    }
    forall w ensures E.GeneratorOf(E.Apply(sha, s.exports, create), w) == E.GeneratorOf(s.exports, w) {
      OthersLeaveGenerator(sha, s.exports, create, w);
    }
  }

  lemma ElsewhereKeepsInv(sha: X.Body -> string, s: System, e: E.Event)
    requires Inv(sha, s)
    ensures Inv(sha, Apply(sha, s, Elsewhere(e)))
  {
    if NotByGenerators(e) {
      E.StepKeepsInv(sha, s.exports, e);
      RowsStay(sha, s.exports, e);
      forall w ensures E.GeneratorOf(E.Apply(sha, s.exports, e), w) == E.GeneratorOf(s.exports, w) {
        OthersLeaveGenerator(sha, s.exports, e, w);
      }
      forall w | w in s.jobs.attempts ensures Agrees(E.Apply(sha, s.exports, e), w, TargetOf(s.jobs, w), s.jobs.attempts[w]) {
        AttemptKept(sha, s, e, w);
      }
    }
  }

  lemma StepKeepsInv(sha: X.Body -> string, s: System, e: Event)
    requires Inv(sha, s)
    ensures Inv(sha, Apply(sha, s, e))
  {
    match e
    case Create(_, _, _, _, _, _) => CreateKeepsInv(sha, s, e);
    case OnQueue(step) =>
      if step.LetGo? {
        LetGoKeepsInv(sha, s, step.worker);
      } else {
        QueueStepKeepsInv(sha, s, step);
      }
    case Acquire(w, fault) => AcquiredKeepsInv(sha, s, w, fault);
    case Put(w, body, confirmed) => StoredKeepsInv(sha, s, w, body, confirmed);
    case Complete(w, expiresAt, confirmed) => CompleteKeepsInv(sha, s, w, expiresAt, confirmed);
    case Recheck(w) => RecheckKeepsInv(sha, s, w);
    case DeleteConflicting(w, fault) => DeletedKeepsInv(sha, s, w, fault);
    case GiveUp(w, mark) => GivenUpKeepsInv(sha, s, w, mark);
    case Refuse(w, mark) => RefusedKeepsInv(sha, s, w, mark);
    case FindNoHandler(w) => NoHandlerKeepsInv(sha, s, w);
    case Panic(w) => PanicKeepsInv(sha, s, w);
    case Elsewhere(other) => ElsewhereKeepsInv(sha, s, other);
  }
}
