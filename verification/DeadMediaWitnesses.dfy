/** Runs in which a processing job dies and its asset stays open: one for each unattended way to die. */
module DeadMediaWitnesses {
  import opened Graphs
  import opened Faults
  import opened LastAttempts
  import opened MediaJobs
  import opened DeadMediaJobs

  const JOB: Uuid := 7
  const ASSET: Uuid := 1
  const LAST := Name(ATTEMPTS)

  // A photo is uploaded, and one worker after the other claims its job and lets the lease run out.
  function ClaimRun(k: nat): seq<Event> {
    if k == 0 then [Elsewhere(M.CreateAsset(ASSET, true)), FinishUpload(0, ASSET, JOB, "1", 0)]
    else ClaimRun(k - 1) + [OnQueue(Take(JOB, k))]
  }

  lemma RunSnoc(events: seq<Event>, e: Event)
    ensures Run(events + [e]) == Apply(Run(events), e)
  {
    assert (events + [e])[..|events|] == events;
  }

  lemma RunTwo(events: seq<Event>, first: Event, second: Event)
    ensures Run(events + [first] + [second]) == Apply(Apply(Run(events), first), second)
  {
    RunSnoc(events, first);
    RunSnoc(events + [first], second);
  }

  function Photo(status: M.Status): M.System {
    M.System(M.Db(map[ASSET := M.Asset(true, status, false)], map[], {}), map[])
  }

  ghost predicate Claimed(s: System, k: nat) {
    AfterClaims(s.jobs, ProcessRequest(JOB, "1", 0), ASSET, k) && s.media == Photo(M.Uploaded)
  }

  lemma AssetCreated()
    ensures Apply(EMPTY, Elsewhere(M.CreateAsset(ASSET, true))) == System(EMPTY.jobs, Photo(M.Pending))
  {
  }

  lemma JobSubmitted()
    ensures var request := ProcessRequest(JOB, "1", 0);
      AfterClaims(A.Submit(EMPTY.jobs, request, ASSET), request, ASSET, 0)
  {
  }

  lemma UploadFinished()
    ensures Claimed(Apply(System(EMPTY.jobs, Photo(M.Pending)), FinishUpload(0, ASSET, JOB, "1", 0)), 0)
  {
    JobSubmitted();
    assert M.Apply(Photo(M.Pending), M.CompleteUpload(0, ASSET)) == Photo(M.Uploaded);
  }

  lemma UploadReached()
    ensures Claimed(Run(ClaimRun(0)), 0)
  {
    var create, finish := Elsewhere(M.CreateAsset(ASSET, true)), FinishUpload(0, ASSET, JOB, "1", 0);
    RunTwo([], create, finish);
    assert [] + [create] + [finish] == ClaimRun(0);
    AssetCreated();
    UploadFinished();
  }

  lemma {:induction false} ClaimsReached(k: nat)
    requires k <= ATTEMPTS
    ensures Claimed(Run(ClaimRun(k)), k)
  {
    if k == 0 {
      UploadReached();
    } else {
      ClaimsReached(k - 1);
      RunSnoc(ClaimRun(k - 1), OnQueue(Take(JOB, k)));
      OneClaim(Run(ClaimRun(k - 1)).jobs, ProcessRequest(JOB, "1", 0), ASSET, k - 1);
    }
  }

  // The job is dead, and its asset has the given status.
  ghost predicate LeftOpen(s: System, status: M.Status) {
    IsDead(s.jobs, JOB) && s.jobs.targetOf == map[JOB := ASSET] && s.media == Photo(status)
  }

  lemma ReportLeavesOpen(s: System, t: System, how: A.Ending, status: M.Status)
    requires Claimed(s, ATTEMPTS) && how != A.Done
    requires t == System(A.Advance(s.jobs, LAST, A.Ended(how)), Photo(status))
    ensures LeftOpen(Apply(t, OnQueue(Report(ATTEMPTS))), status)
  {
    LastReport(s.jobs, ProcessRequest(JOB, "1", 0), ASSET, ATTEMPTS, how);
  }

  lemma AcquireWorks(s: System)
    requires Claimed(s, ATTEMPTS)
    ensures Apply(s, Acquire(LAST, 0, Works)) == System(A.Advance(s.jobs, LAST, A.Busy), Photo(M.Processing))
  {
    assert M.Apply(s.media, M.AcquireForProcessing(0, ASSET)) == Photo(M.Processing);
  }

  // What the last processor does before it reports an error.
  lemma LastErrors(s: System, t: System)
    requires Claimed(s, ATTEMPTS) && t == System(A.Advance(s.jobs, LAST, A.Busy), Photo(M.Processing))
    ensures Apply(s, Acquire(LAST, 0, Fails)) == System(A.Advance(s.jobs, LAST, A.Ended(A.NotAcquired)), Photo(M.Uploaded))
    ensures Apply(s, FindNoHandler(LAST)) == System(A.Advance(s.jobs, LAST, A.Ended(A.Unhandled)), Photo(M.Uploaded))
    ensures Apply(t, Reject(LAST, 0, false, Fails)) == System(A.Advance(s.jobs, LAST, A.Ended(A.NotMarked)), Photo(M.Processing))
    ensures Apply(t, Panic(LAST)) == System(A.Advance(s.jobs, LAST, A.Ended(A.Panicked)), Photo(M.Processing))
  {
    assert A.Running(t.jobs, LAST, A.Busy) && A.LastAttempt(t.jobs, LAST);
  }

  lemma ErrorRun(s: System, before: seq<Event>, e: Event, how: A.Ending, status: M.Status)
    requires Claimed(s, ATTEMPTS) && how != A.Done
    requires Apply(Run(before), e) == System(A.Advance(s.jobs, LAST, A.Ended(how)), Photo(status))
    ensures LeftOpen(Run(before + [e] + [OnQueue(Report(ATTEMPTS))]), status)
  {
    RunTwo(before, e, OnQueue(Report(ATTEMPTS)));
    ReportLeavesOpen(s, Apply(Run(before), e), how, status);
  }

  // All five attempts of a processing job are used up. Then the asset stays uploaded if the last attempt could not
  // acquire it or found no handler, and under processing if the last attempt could not reject it, panicked, or stopped
  // and was buried by the next claim.
  lemma DeadJobLeavesAssetOpen()
    ensures var run, running, report := ClaimRun(ATTEMPTS), ClaimRun(ATTEMPTS) + [Acquire(LAST, 0, Works)], OnQueue(Report(ATTEMPTS));
      && LeftOpen(Run(run + [Acquire(LAST, 0, Fails)] + [report]), M.Uploaded)
      && LeftOpen(Run(run + [FindNoHandler(LAST)] + [report]), M.Uploaded)
      && LeftOpen(Run(running + [Reject(LAST, 0, false, Fails)] + [report]), M.Processing)
      && LeftOpen(Run(running + [Panic(LAST)] + [report]), M.Processing)
      && LeftOpen(Run(running + [OnQueue(Bury(ATTEMPTS))]), M.Processing)
  {
    var run, report := ClaimRun(ATTEMPTS), OnQueue(Report(ATTEMPTS));
    var running, s := run + [Acquire(LAST, 0, Works)], Run(run);
    var t := Run(running);
    ClaimsReached(ATTEMPTS);
    RunSnoc(run, Acquire(LAST, 0, Works));
    AcquireWorks(s);
    LastErrors(s, t);
    ErrorRun(s, run, Acquire(LAST, 0, Fails), A.NotAcquired, M.Uploaded);
    ErrorRun(s, run, FindNoHandler(LAST), A.Unhandled, M.Uploaded);
    ErrorRun(s, running, Reject(LAST, 0, false, Fails), A.NotMarked, M.Processing);
    ErrorRun(s, running, Panic(LAST), A.Panicked, M.Processing);
    RunSnoc(running, OnQueue(Bury(ATTEMPTS)));
    LastBurial(s.jobs, t.jobs, ProcessRequest(JOB, "1", 0), ASSET, ATTEMPTS);
  }
}
