/** What a dead processing job says about its asset: settled, unless the job died unattended and nobody settled it. */
module DeadMediaJobs {
  import opened Graphs
  import opened Texts
  import opened Faults
  import opened MediaJobs

  // A job dies unattended at this event.
  predicate DiesUnattended(s: System, e: Event, job: Uuid) {
    e.OnQueue? && A.Unattended(s.jobs, e.step, job)
  }

  lemma OthersLeaveJobs(s: System, e: Event)
    requires !e.OnQueue? && !e.FinishUpload?
    ensures Apply(s, e).jobs.queue == s.jobs.queue && Apply(s, e).jobs.targetOf == s.jobs.targetOf
  {
  }

  lemma QueueLeavesTargets(s: System, e: Event, job: Uuid)
    requires Q.Inv(s.jobs.queue) && e.OnQueue? && job in s.jobs.queue.rows
    ensures Apply(s, e).jobs == A.Apply(s.jobs, e.step)
    ensures job in Apply(s, e).jobs.queue.rows && Apply(s, e).jobs.targetOf == s.jobs.targetOf
  {
    A.TargetsStay(s.jobs, e.step);
    A.RowsStay(s.jobs.queue, e.step);
    A.QueueRows(s.jobs, e.step);
  }

  // Only statements on the queue touch the jobs that exist.
  lemma JobsMove(s: System, e: Event, job: Uuid)
    requires Inv(s) && job in s.jobs.queue.rows
    ensures var next := Apply(s, e);
      && job in next.jobs.queue.rows
      && (if e.OnQueue? then next.jobs == A.Apply(s.jobs, e.step)
          else next.jobs.queue.rows[job] == s.jobs.queue.rows[job])
      && (job in s.jobs.targetOf ==> job in next.jobs.targetOf && next.jobs.targetOf[job] == s.jobs.targetOf[job])
      && (job in next.jobs.targetOf ==> job in s.jobs.targetOf)
  {
    if e.OnQueue? {
      QueueLeavesTargets(s, e, job);
    } else if e.FinishUpload? {
      A.SubmitLeavesRows(s.jobs, ProcessRequest(e.job, e.key, e.at), e.m, job);
    } else {
      OthersLeaveJobs(s, e);
    }
  }

  lemma TargetsStay(s: System, e: Event, m: Uuid)
    requires Inv(s) && m in s.jobs.targetOf.Values
    ensures m in Apply(s, e).jobs.targetOf.Values
  {
    var job :| job in s.jobs.targetOf && s.jobs.targetOf[job] == m;
    JobsMove(s, e, job);
  }

  // At its job's death an asset is left open exactly when it was open and the death is unattended.
  lemma DeathLeavesOpenIff(s: System, e: Event, job: Uuid)
    requires Inv(s) && A.Dies(s.jobs, Apply(s, e).jobs, job) && job in s.jobs.targetOf
    ensures !Settled(Apply(s, e).media, s.jobs.targetOf[job]) <==>
      DiesUnattended(s, e, job) && !Settled(s.media, s.jobs.targetOf[job])
  {
    JobsMove(s, e, job);
    if !DiesUnattended(s, e, job) {
      A.AttendedDeath(s.jobs, e.step, job);
      assert Agrees(s.media, s.jobs.targetOf[job], s.jobs.attempts[e.step.worker]);
    }
  }

  // ---- Who settles an asset ----

  predicate IsOpen(s: System, m: Uuid) {
    m in s.jobs.targetOf.Values && !Settled(s.media, m)
  }

  // A processor makes the asset ready or rejects it, or a user deletes it.
  predicate Settles(s: System, e: Event, m: Uuid) {
    && IsOpen(s, m)
    && match e
       case MarkReady(w, t, _) =>
         && A.Running(s.jobs, w, A.Busy) && A.TargetOf(s.jobs, w) == m && t !in s.media.txs && M.AssetFree(s.media, t, m)
       case Reject(w, t, unusable, fault) =>
         && A.Running(s.jobs, w, A.Busy) && A.TargetOf(s.jobs, w) == m && (unusable || A.LastAttempt(s.jobs, w))
         && fault != Fails && Rejects(s, t, m) && s.media.txs[t].cleared.Some?
       case Elsewhere(CommitDrop(t)) =>
         t in s.media.txs && s.media.txs[t].Dropping? && s.media.txs[t].media == m && s.media.txs[t].cleared.Some?
       case _ => false
  }

  // The statement on the media that an event makes, if it makes one.
  ghost function OnMedia(s: System, e: Event): Option<M.Event> {
    match e
    case FinishUpload(t, m, job, key, at) =>
      if M.Apply(s.media, M.CompleteUpload(t, m)) == s.media || A.Submit(s.jobs, ProcessRequest(job, key, at), m) == s.jobs then None
      else Some(M.CompleteUpload(t, m))
    case Acquire(w, t, fault) =>
      if A.Running(s.jobs, w, A.Pending) && fault != Fails then Some(M.AcquireForProcessing(t, A.TargetOf(s.jobs, w))) else None
    case MarkReady(w, t, _) => if A.Running(s.jobs, w, A.Busy) then Some(M.MarkReady(t, A.TargetOf(s.jobs, w))) else None
    case Reject(w, t, unusable, fault) =>
      if A.Running(s.jobs, w, A.Busy) && (unusable || A.LastAttempt(s.jobs, w)) && fault != Fails && Rejects(s, t, A.TargetOf(s.jobs, w))
      then Some(M.CommitReject(t)) else None
    case Elsewhere(other) => if NotByProcessors(s, other) then Some(other) else None
    case _ => None
  }

  lemma UnmovedAssets(media: M.System, t: nat, m: Uuid)
    ensures var next := M.Apply(media, M.AcquireForProcessing(t, m));
      m in next.db.assets && next.db.assets[m].status == M.Uploaded ==> next == media
  {
  }

  // A rejection whose transaction cannot commit changes nothing.
  lemma RejectingMoves(s: System, t: nat, m: Uuid)
    requires Inv(s) && Rejects(s, t, m)
    ensures var next := M.Apply(s.media, M.CommitReject(t));
      m in next.db.assets && next.db.assets[m].status == M.Processing ==> next == s.media
  {
  }

  lemma MediaMove(s: System, e: Event)
    requires Inv(s)
    ensures Apply(s, e).media == if OnMedia(s, e).Some? then M.Apply(s.media, OnMedia(s, e).value) else s.media
  {
    if e.Acquire? {
      UnmovedAssets(s.media, e.t, A.TargetOf(s.jobs, e.worker));
    } else if e.Reject? && Rejects(s, e.t, A.TargetOf(s.jobs, e.worker)) {
      RejectingMoves(s, e.t, A.TargetOf(s.jobs, e.worker));
    }
  }

  // The statements that take an open asset out of reach.
  predicate TakesOut(media: M.System, e: M.Event, m: Uuid) {
    || (e.MarkReady? && e.m == m && m in media.db.assets && media.db.assets[m].status == M.Processing &&
        e.t !in media.txs && M.AssetFree(media, e.t, m))
    || (e.CommitReject? && e.t in media.txs && media.txs[e.t].Rejecting? && media.txs[e.t].media == m && media.txs[e.t].cleared.Some?)
    || (e.CommitDrop? && e.t in media.txs && media.txs[e.t].Dropping? && media.txs[e.t].media == m && media.txs[e.t].cleared.Some?)
  }

  lemma WhatCommitsSettle(media: M.System, e: M.Event, m: Uuid)
    requires MediaInv(media) && !Settled(media, m) && (e.CommitReject? || e.CommitDrop?)
    ensures Settled(M.Apply(media, e), m) <==> TakesOut(media, e, m)
  {
    if e.t in media.txs {
      assert M.TxOk(media.db, media.txs[e.t]);
      if e.CommitReject? && media.txs[e.t].Rejecting? {
        M.ProcessingIsUnattached(media.db, media.txs[e.t].media);
      }
    }
  }

  lemma WhatSettles(media: M.System, e: M.Event, m: Uuid)
    requires MediaInv(media) && !Settled(media, m) && Reached(media, m, 1)
    ensures Settled(M.Apply(media, e), m) <==> TakesOut(media, e, m)
  {
    if e.CommitReject? || e.CommitDrop? {
      WhatCommitsSettle(media, e, m);
    } else {
      assert M.AssetOk(media.db.assets[m]);
    }
  }

  // A processor at work on an open asset has acquired it.
  lemma BusyAtProcessing(s: System, w: string, m: Uuid)
    requires Inv(s) && IsOpen(s, m) && A.Running(s.jobs, w, A.Busy) && A.TargetOf(s.jobs, w) == m
    ensures m in s.media.db.assets && s.media.db.assets[m].status == M.Processing
  {
    assert Agrees(s.media, A.TargetOf(s.jobs, w), A.Busy);
  }

  lemma SettlesByStatement(s: System, e: Event, m: Uuid)
    requires IsOpen(s, m)
    requires forall w :: A.Running(s.jobs, w, A.Busy) && A.TargetOf(s.jobs, w) == m ==>
      m in s.media.db.assets && s.media.db.assets[m].status == M.Processing
    ensures Settles(s, e, m) <==> OnMedia(s, e).Some? && TakesOut(s.media, OnMedia(s, e).value, m)
  {
  }

  // An open asset is settled by exactly three events.
  lemma OpenUntilSettled(s: System, e: Event, m: Uuid)
    requires Inv(s) && IsOpen(s, m)
    ensures Settled(Apply(s, e).media, m) <==> Settles(s, e, m)
  {
    MediaMove(s, e);
    forall w | A.Running(s.jobs, w, A.Busy) && A.TargetOf(s.jobs, w) == m
      ensures m in s.media.db.assets && s.media.db.assets[m].status == M.Processing
    {
      BusyAtProcessing(s, w, m);
    }
    SettlesByStatement(s, e, m);
    if OnMedia(s, e).Some? {
      WhatSettles(s.media, OnMedia(s, e).value, m);
    }
  }

  lemma SettledStays(s: System, e: Event, m: Uuid)
    requires Inv(s) && m in s.jobs.targetOf.Values && Settled(s.media, m)
    ensures Settled(Apply(s, e).media, m)
  {
    MediaMove(s, e);
    if OnMedia(s, e).Some? {
      ReachedStays(s.media, OnMedia(s, e).value, m, 3);
    }
  }

  // An asset gets its job when its upload is complete, and is open then.
  lemma NewTargetsAreOpen(s: System, e: Event, m: Uuid)
    requires Inv(s) && m !in s.jobs.targetOf.Values && m in Apply(s, e).jobs.targetOf.Values
    ensures !Settled(Apply(s, e).media, m)
  {
    if e.FinishUpload? {
      Uploading(s.media, e.t, e.m);
      A.SubmitLeavesAttempts(s.jobs, ProcessRequest(e.job, e.key, e.at), e.m);
    } else if e.OnQueue? {
      A.TargetsStay(s.jobs, e.step);
    } else {
      OthersLeaveJobs(s, e);
    }
  }

  // ---- Over whole runs ----

  const EMPTY := System(A.Jobs(Q.EMPTY, map[], map[]), M.EMPTY)

  ghost function Run(events: seq<Event>): System {
    if events == [] then EMPTY else Apply(Run(events[..|events| - 1]), events[|events| - 1])
  }

  lemma {:induction false} RunsKeepInv(events: seq<Event>)
    ensures Inv(Run(events))
  {
    if events != [] {
      RunsKeepInv(events[..|events| - 1]);
      StepKeepsInv(Run(events[..|events| - 1]), events[|events| - 1]);
    }
  }

  // Somebody settled m at some point of the run.
  ghost predicate EverSettled(events: seq<Event>, m: Uuid) {
    events != [] &&
    var before := events[..|events| - 1];
    EverSettled(before, m) || Settles(Run(before), events[|events| - 1], m)
  }

  ghost predicate DiedUnattended(events: seq<Event>, job: Uuid) {
    events != [] &&
    var before, last := events[..|events| - 1], events[|events| - 1];
    || DiedUnattended(before, job)
    || (A.Dies(Run(before).jobs, Run(events).jobs, job) && DiesUnattended(Run(before), last, job))
  }

  lemma {:induction false} OnlyTargetsAreSettled(events: seq<Event>, m: Uuid)
    requires EverSettled(events, m)
    ensures m in Run(events).jobs.targetOf.Values
  {
    var before, e := events[..|events| - 1], events[|events| - 1];
    RunsKeepInv(before);
    if EverSettled(before, m) {
      OnlyTargetsAreSettled(before, m);
    }
    TargetsStay(Run(before), e, m);
  }

  lemma {:induction false} SettledIffEver(events: seq<Event>, m: Uuid)
    requires m in Run(events).jobs.targetOf.Values
    ensures Settled(Run(events).media, m) <==> EverSettled(events, m)
  {
    var before, e := events[..|events| - 1], events[|events| - 1];
    var s := Run(before);
    RunsKeepInv(before);
    if m in s.jobs.targetOf.Values {
      SettledIffEver(before, m);
      if Settled(s.media, m) {
        SettledStays(s, e, m);
      } else {
        OpenUntilSettled(s, e, m);
      }
    } else {
      NewTargetsAreOpen(s, e, m);
      if EverSettled(before, m) {
        OnlyTargetsAreSettled(before, m);
      }
    }
  }

  lemma NewJobIsNotDead(s: System, e: Event, job: Uuid)
    requires job !in s.jobs.queue.rows && job in Apply(s, e).jobs.queue.rows
    ensures Apply(s, e).jobs.queue.rows[job].status != J.Dead
  {
    if e.OnQueue? {
      A.NewJobIsNotDead(s.jobs, e.step, job);
    }
  }

  lemma {:induction false} DeadIsAttended(events: seq<Event>, job: Uuid)
    requires var jobs := Run(events).jobs;
      job in jobs.targetOf && job in jobs.queue.rows && jobs.queue.rows[job].status == J.Dead
    requires !DiedUnattended(events, job)
    ensures Settled(Run(events).media, Run(events).jobs.targetOf[job])
  {
    var before, e := events[..|events| - 1], events[|events| - 1];
    var s := Run(before);
    RunsKeepInv(before);
    if job !in s.jobs.queue.rows {
      NewJobIsNotDead(s, e, job);
    }
    JobsMove(s, e, job);
    if s.jobs.queue.rows[job].status == J.Dead {
      DeadIsAttended(before, job);
      SettledStays(s, e, s.jobs.targetOf[job]);
    } else {
      DeathLeavesOpenIff(s, e, job);
    }
  }

  // The asset of a dead processing job is open exactly when the job died unattended and nobody ever settled the asset:
  // no processor made it ready or rejected it, and no user deleted it.
  lemma DeadJobLeavesAssetOpenIff(events: seq<Event>, job: Uuid)
    requires var jobs := Run(events).jobs;
      job in jobs.targetOf && job in jobs.queue.rows && jobs.queue.rows[job].status == J.Dead
    ensures var s := Run(events);
      !Settled(s.media, s.jobs.targetOf[job]) <==>
        DiedUnattended(events, job) && !EverSettled(events, s.jobs.targetOf[job])
    ensures !DiedUnattended(events, job) ==> Settled(Run(events).media, Run(events).jobs.targetOf[job])
  {
    SettledIffEver(events, Run(events).jobs.targetOf[job]);
    if !DiedUnattended(events, job) {
      DeadIsAttended(events, job);
    }
  }
}
