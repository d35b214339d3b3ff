/** What a dead generation job says about its export: settled, unless the job died unattended and nobody settled it. */
module DeadJobs {
  import opened Graphs
  import opened Texts
  import opened Faults
  import opened ExportWorkers
  import A = JobAttempts
  import opened GenerationJobs

  // A job dies unattended at this event.
  predicate DiesUnattended(s: System, e: Event, job: Uuid) {
    e.OnQueue? && A.Unattended(s.jobs, e.step, job)
  }

  // Only statements on the queue touch the jobs that exist.
  lemma OthersLeaveJobs(sha: X.Body -> string, s: System, e: Event)
    requires !e.OnQueue? && !e.Create?
    ensures Apply(sha, s, e).jobs.queue == s.jobs.queue && Apply(sha, s, e).jobs.targetOf == s.jobs.targetOf
  {
  }

  lemma QueueLeavesTargets(sha: X.Body -> string, s: System, e: Event, job: Uuid)
    requires Q.Inv(s.jobs.queue) && e.OnQueue? && job in s.jobs.queue.rows
    ensures Apply(sha, s, e).jobs == A.Apply(s.jobs, e.step)
    ensures job in Apply(sha, s, e).jobs.queue.rows && Apply(sha, s, e).jobs.targetOf == s.jobs.targetOf
  {
    A.TargetsStay(s.jobs, e.step);
    A.RowsStay(s.jobs.queue, e.step);
    A.QueueRows(s.jobs, e.step);
  }

  lemma JobsMove(sha: X.Body -> string, s: System, e: Event, job: Uuid)
    requires Inv(sha, s) && job in s.jobs.queue.rows
    ensures var next := Apply(sha, s, e);
      && job in next.jobs.queue.rows
      && (if e.OnQueue? then next.jobs == A.Apply(s.jobs, e.step)
          else next.jobs.queue.rows[job] == s.jobs.queue.rows[job])
      && (job in s.jobs.targetOf ==> job in next.jobs.targetOf && next.jobs.targetOf[job] == s.jobs.targetOf[job])
      && (job in next.jobs.targetOf ==> job in s.jobs.targetOf)
  {
    if e.OnQueue? {
      QueueLeavesTargets(sha, s, e, job);
    } else if e.Create? {
      A.SubmitLeavesRows(s.jobs, GenerateRequest(e.job, e.key, e.at), e.exportId, job);
    } else {
      OthersLeaveJobs(sha, s, e);
    }
  }

  // At its job's death an export is left open exactly when it was open and the death is unattended.
  lemma DeathLeavesOpenIff(sha: X.Body -> string, s: System, e: Event, job: Uuid)
    requires var next := Apply(sha, s, e); Inv(sha, s) && A.Dies(s.jobs, next.jobs, job)
    requires job in s.jobs.targetOf
    ensures !Settled(Apply(sha, s, e).exports, s.jobs.targetOf[job]) <==>
      DiesUnattended(s, e, job) && !Settled(s.exports, s.jobs.targetOf[job])
  {
    JobsMove(sha, s, e, job);
    A.DeathIsAnswerOrBurial(s.jobs, e.step, job);
    if !DiesUnattended(s, e, job) {
      A.AttendedDeath(s.jobs, e.step, job);
      assert Agrees(s.exports, e.step.worker, s.jobs.targetOf[job], s.jobs.attempts[e.step.worker]);
    }
  }

  // ---- Who settles an export ----

  // The events after which an open export cannot be completed any more.
  predicate Settles(s: System, e: Event, x: Uuid) {
    && x in s.exports.rows
    && match e
       case Complete(w, _, _) =>
         A.Running(s.jobs, w, A.Busy) && E.GeneratorOf(s.exports, w).Uploaded? && E.GeneratorOf(s.exports, w).exportId == x
       case GiveUp(w, mark) =>
         && A.Running(s.jobs, w, A.Busy) && CanGiveUp(E.GeneratorOf(s.exports, w))
         && E.GeneratorOf(s.exports, w).exportId == x && A.LastAttempt(s.jobs, w) && mark != Fails
       case Refuse(w, mark) =>
         && A.Running(s.jobs, w, A.Busy) && E.GeneratorOf(s.exports, w).Rendering?
         && E.GeneratorOf(s.exports, w).exportId == x && mark != Fails
       case Elsewhere(ExpireByUser(y)) => y == x
       case _ => false
  }

  // The statement on the exports that an event makes, if it makes one.
  ghost function OnExports(s: System, e: Event): Option<E.Event> {
    match e
    case Create(job, exportId, tree, format, key, at) =>
      if exportId in s.exports.rows || A.Submit(s.jobs, GenerateRequest(job, key, at), exportId) == s.jobs then None
      else Some(E.CreateExport(exportId, tree, format))
    case Acquire(w, fault) =>
      if A.Running(s.jobs, w, A.Pending) && fault != Fails then Some(E.AcquireExport(w, A.TargetOf(s.jobs, w), fault == Works)) else None
    case Put(w, body, confirmed) => if A.Running(s.jobs, w, A.Busy) then Some(E.PutResult(w, body, confirmed)) else None
    case Complete(w, expiresAt, confirmed) => if A.Running(s.jobs, w, A.Busy) then Some(E.Complete(w, expiresAt, confirmed)) else None
    case Recheck(w) => if A.Running(s.jobs, w, A.Busy) then Some(E.Recheck(w)) else None
    case DeleteConflicting(w, fault) =>
      if !A.Running(s.jobs, w, A.Busy) || !E.GeneratorOf(s.exports, w).Conflicted? then None
      else Some(if fault == Fails then E.Crash(w) else E.DeleteConflicting(w))
    case GiveUp(w, mark) =>
      if !A.Running(s.jobs, w, A.Busy) || !CanGiveUp(E.GeneratorOf(s.exports, w)) then None
      else Some(if A.LastAttempt(s.jobs, w) && mark != Fails then E.MarkFailed(w) else E.Crash(w))
    case Refuse(w, mark) =>
      if !A.Running(s.jobs, w, A.Busy) || !E.GeneratorOf(s.exports, w).Rendering? then None
      else Some(if mark != Fails then E.MarkFailed(w) else E.Crash(w))
    case Panic(w) => if A.Running(s.jobs, w, A.Pending) || A.Running(s.jobs, w, A.Busy) then Some(E.Crash(w)) else None
    case OnQueue(step) => if step.LetGo? then Some(E.Crash(step.worker)) else None
    case Elsewhere(other) => if NotByGenerators(other) then Some(other) else None
    case _ => None
  }

  lemma ExportsMove(sha: X.Body -> string, s: System, e: Event)
    ensures Apply(sha, s, e).exports == if OnExports(s, e).Some? then E.Apply(sha, s.exports, OnExports(s, e).value) else s.exports
  {
  }

  // The statements that take an open export out of reach.
  predicate TakesOut(s: E.System, e: E.Event, x: Uuid) {
    || (e.Complete? && E.GeneratorOf(s, e.g).Uploaded? && E.GeneratorOf(s, e.g).exportId == x)
    || (e.MarkFailed? && CanGiveUp(E.GeneratorOf(s, e.g)) && E.GeneratorOf(s, e.g).exportId == x)
    || (e.ExpireByUser? && e.id == x)
  }

  lemma WhatSettles(sha: X.Body -> string, s: E.System, e: E.Event, x: Uuid)
    requires E.Inv(sha, s) && x in s.rows && !Settled(s, x)
    ensures Settled(E.Apply(sha, s, e), x) <==> TakesOut(s, e, x)
  {
    E.StatesMoveForward(sha, s, e, x);
    if e.Complete? {
      assert E.GeneratorInv(sha, s, E.GeneratorOf(s, e.g));
    }
  }

  lemma SettlesByStatement(s: System, e: Event, x: Uuid)
    requires x in s.exports.rows
    ensures Settles(s, e, x) <==> OnExports(s, e).Some? && TakesOut(s.exports, OnExports(s, e).value, x)
  {
  }

  lemma OpenUntilSettled(sha: X.Body -> string, s: System, e: Event, x: Uuid)
    requires Inv(sha, s) && x in s.exports.rows && !Settled(s.exports, x)
    ensures x in Apply(sha, s, e).exports.rows
    ensures Settled(Apply(sha, s, e).exports, x) <==> Settles(s, e, x)
  {
    ExportsMove(sha, s, e);
    SettlesByStatement(s, e, x);
    if OnExports(s, e).Some? {
      RowsStay(sha, s.exports, OnExports(s, e).value);
      WhatSettles(sha, s.exports, OnExports(s, e).value, x);
    }
  }

  lemma SettledStays(sha: X.Body -> string, s: System, e: Event, x: Uuid)
    requires Inv(sha, s) && Settled(s.exports, x)
    ensures Settled(Apply(sha, s, e).exports, x)
  {
    ExportsMove(sha, s, e);
    if OnExports(s, e).Some? {
      StepKeepsSettled(sha, s.exports, OnExports(s, e).value, x);
    }
  }

  lemma NewRowsAreOpen(sha: X.Body -> string, s: E.System, e: E.Event, x: Uuid)
    requires x !in s.rows && x in E.Apply(sha, s, e).rows
    ensures !Settled(E.Apply(sha, s, e), x)
  {
  }

  lemma NewExportsAreOpen(sha: X.Body -> string, s: System, e: Event, x: Uuid)
    requires x !in s.exports.rows && x in Apply(sha, s, e).exports.rows
    ensures !Settled(Apply(sha, s, e).exports, x)
  {
    ExportsMove(sha, s, e);
    NewRowsAreOpen(sha, s.exports, OnExports(s, e).value, x);
  }

  // ---- Over whole runs ----

  const NO_JOBS := A.Jobs(Q.EMPTY, map[], map[])

  const EMPTY := System(NO_JOBS, E.EMPTY)

  ghost function Run(sha: X.Body -> string, events: seq<Event>): System {
    if events == [] then EMPTY else Apply(sha, Run(sha, events[..|events| - 1]), events[|events| - 1])
  }

  lemma {:induction false} RunsKeepInv(sha: X.Body -> string, events: seq<Event>)
    ensures Inv(sha, Run(sha, events))
  {
    if events == [] {
      E.RunsKeepInv(sha, []);
      assert E.Run(sha, E.EMPTY, []) == E.EMPTY;
    } else {
      RunsKeepInv(sha, events[..|events| - 1]);
      StepKeepsInv(sha, Run(sha, events[..|events| - 1]), events[|events| - 1]);
    }
  }

  // Somebody settled x at some point of the run.
  ghost predicate EverSettled(sha: X.Body -> string, events: seq<Event>, x: Uuid) {
    events != [] &&
    var before := events[..|events| - 1];
    EverSettled(sha, before, x) || Settles(Run(sha, before), events[|events| - 1], x)
  }

  ghost predicate DiedUnattended(sha: X.Body -> string, events: seq<Event>, job: Uuid) {
    events != [] &&
    var before, last := events[..|events| - 1], events[|events| - 1];
    || DiedUnattended(sha, before, job)
    || (A.Dies(Run(sha, before).jobs, Run(sha, events).jobs, job) && DiesUnattended(Run(sha, before), last, job))
  }

  lemma {:induction false} SettledIffEver(sha: X.Body -> string, events: seq<Event>, x: Uuid)
    ensures Settled(Run(sha, events).exports, x) <==> EverSettled(sha, events, x)
  {
    if events != [] {
      var before, e := events[..|events| - 1], events[|events| - 1];
      var s := Run(sha, before);
      SettledIffEver(sha, before, x);
      RunsKeepInv(sha, before);
      if Settled(s.exports, x) {
        SettledStays(sha, s, e, x);
      } else if x in s.exports.rows {
        OpenUntilSettled(sha, s, e, x);
      } else if x in Apply(sha, s, e).exports.rows {
        NewExportsAreOpen(sha, s, e, x);
      }
    }
  }

  lemma NewJobIsNotDead(sha: X.Body -> string, s: System, e: Event, job: Uuid)
    requires job !in s.jobs.queue.rows && job in Apply(sha, s, e).jobs.queue.rows
    ensures Apply(sha, s, e).jobs.queue.rows[job].status != J.Dead
  {
    if e.OnQueue? {
      A.NewJobIsNotDead(s.jobs, e.step, job);
    }
  }

  lemma {:induction false} DeadIsAttended(sha: X.Body -> string, events: seq<Event>, job: Uuid)
    requires var jobs := Run(sha, events).jobs;
      job in jobs.targetOf && job in jobs.queue.rows && jobs.queue.rows[job].status == J.Dead
    requires !DiedUnattended(sha, events, job)
    ensures Settled(Run(sha, events).exports, Run(sha, events).jobs.targetOf[job])
  {
    var before, e := events[..|events| - 1], events[|events| - 1];
    var s := Run(sha, before);
    RunsKeepInv(sha, before);
    if job !in s.jobs.queue.rows {
      NewJobIsNotDead(sha, s, e, job);
    }
    JobsMove(sha, s, e, job);
    if s.jobs.queue.rows[job].status == J.Dead {
      DeadIsAttended(sha, before, job);
      SettledStays(sha, s, e, s.jobs.targetOf[job]);
    } else {
      DeathLeavesOpenIff(sha, s, e, job);
    }
  }

  // The export of a dead job is open exactly when the job died unattended and nobody ever settled the export: no
  // generator recorded its result or marked it as failed, and no user expired it. So without burials, failed
  // acquisitions, failed marks, missing handlers and panics, a dead job does mean a settled export.
  lemma DeadJobLeavesExportOpenIff(sha: X.Body -> string, events: seq<Event>, job: Uuid)
    requires var jobs := Run(sha, events).jobs;
      job in jobs.targetOf && job in jobs.queue.rows && jobs.queue.rows[job].status == J.Dead
    ensures var s := Run(sha, events);
      !Settled(s.exports, s.jobs.targetOf[job]) <==>
        DiedUnattended(sha, events, job) && !EverSettled(sha, events, s.jobs.targetOf[job])
    ensures !DiedUnattended(sha, events, job) ==> Settled(Run(sha, events).exports, Run(sha, events).jobs.targetOf[job])
  {
    SettledIffEver(sha, events, Run(sha, events).jobs.targetOf[job]);
    if !DiedUnattended(sha, events, job) {
      DeadIsAttended(sha, events, job);
    }
  }
}
