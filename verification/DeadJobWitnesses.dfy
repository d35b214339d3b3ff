/** Runs in which a generation job dies and its export stays open: one for each unattended way to die. */
module DeadJobWitnesses {
  import opened Graphs
  import opened Faults
  import opened LastAttempts
  import opened GenerationJobs
  import opened DeadJobs

  const JOB: Uuid := 7
  const EXPORT: Uuid := 1
  const LAST := Name(ATTEMPTS)

  // The export is created, and one worker after the other claims its job and lets the lease run out.
  function ClaimRun(k: nat): seq<Event> {
    if k == 0 then [Create(JOB, EXPORT, 2, "pdf", "1", 0)] else ClaimRun(k - 1) + [OnQueue(Take(JOB, k))]
  }

  lemma RunSnoc(sha: X.Body -> string, events: seq<Event>, e: Event)
    ensures Run(sha, events + [e]) == Apply(sha, Run(sha, events), e)
  {
    assert (events + [e])[..|events|] == events;
  }

  lemma RunTwo(sha: X.Body -> string, events: seq<Event>, first: Event, second: Event)
    ensures Run(sha, events + [first] + [second]) == Apply(sha, Apply(sha, Run(sha, events), first), second)
  {
    RunSnoc(sha, events, first);
    RunSnoc(sha, events + [first], second);
  }

  // Where the run stands after k claims.
  ghost predicate Claimed(s: System, k: nat) {
    && AfterClaims(s.jobs, GenerateRequest(JOB, "1", 0), EXPORT, k)
    && s.exports.rows == map[EXPORT := X.Export(2, "pdf", X.Queued, X.NoKey, 0, "", 0)] && s.exports.generators == map[]
  }

  lemma {:induction false} ClaimsReached(sha: X.Body -> string, k: nat)
    requires k <= ATTEMPTS
    ensures Claimed(Run(sha, ClaimRun(k)), k)
  {
    if k == 0 {
      var create := Create(JOB, EXPORT, 2, "pdf", "1", 0);
      RunSnoc(sha, [], create);
      assert [] + [create] == [create];
    } else {
      ClaimsReached(sha, k - 1);
      RunSnoc(sha, ClaimRun(k - 1), OnQueue(Take(JOB, k)));
      OneClaim(Run(sha, ClaimRun(k - 1)).jobs, GenerateRequest(JOB, "1", 0), EXPORT, k - 1);
    }
  }

  // The job is dead, and its export has the given status.
  ghost predicate LeftOpen(s: System, status: X.Status) {
    && IsDead(s.jobs, JOB) && s.jobs.targetOf == map[JOB := EXPORT]
    && EXPORT in s.exports.rows && s.exports.rows[EXPORT].status == status
  }

  // The last attempt ended with an error that nobody followed up, and is reported.
  lemma ReportLeavesOpen(sha: X.Body -> string, s: System, t: System, how: A.Ending, status: X.Status)
    requires Claimed(s, ATTEMPTS) && how != A.Done
    requires t.jobs == A.Advance(s.jobs, LAST, A.Ended(how))
    requires EXPORT in t.exports.rows && t.exports.rows[EXPORT].status == status
    ensures LeftOpen(Apply(sha, t, OnQueue(Report(ATTEMPTS))), status)
  {
    LastReport(s.jobs, GenerateRequest(JOB, "1", 0), EXPORT, ATTEMPTS, how);
  }

  lemma AcquireWorks(sha: X.Body -> string, s: System)
    requires Claimed(s, ATTEMPTS)
    ensures var t := Apply(sha, s, Acquire(LAST, Works));
      && t.jobs == A.Advance(s.jobs, LAST, A.Busy) && E.GeneratorOf(t.exports, LAST) == E.Rendering(EXPORT)
      && EXPORT in t.exports.rows && t.exports.rows[EXPORT].status == X.Running
  {
  }

  // What the last generator does before it reports an error.
  lemma LastErrors(sha: X.Body -> string, s: System, t: System)
    requires Claimed(s, ATTEMPTS) && t == Apply(sha, s, Acquire(LAST, Works))
    ensures Apply(sha, s, Acquire(LAST, Fails)) == s.(jobs := A.Advance(s.jobs, LAST, A.Ended(A.NotAcquired)))
    ensures Apply(sha, s, FindNoHandler(LAST)) == s.(jobs := A.Advance(s.jobs, LAST, A.Ended(A.Unhandled)))
    ensures var g := Apply(sha, t, GiveUp(LAST, Fails));
      g.jobs == A.Advance(s.jobs, LAST, A.Ended(A.NotMarked)) && g.exports.rows == t.exports.rows
    ensures var p := Apply(sha, t, Panic(LAST));
      p.jobs == A.Advance(s.jobs, LAST, A.Ended(A.Panicked)) && p.exports.rows == t.exports.rows
  {
    AcquireWorks(sha, s);
    assert A.Running(t.jobs, LAST, A.Busy);
    assert A.LastAttempt(t.jobs, LAST);
  }

  lemma ErrorRun(sha: X.Body -> string, s: System, before: seq<Event>, e: Event, how: A.Ending, status: X.Status)
    requires Claimed(s, ATTEMPTS) && how != A.Done
    requires var t := Apply(sha, Run(sha, before), e);
      && t.jobs == A.Advance(s.jobs, LAST, A.Ended(how))
      && EXPORT in t.exports.rows && t.exports.rows[EXPORT].status == status
    ensures LeftOpen(Run(sha, before + [e] + [OnQueue(Report(ATTEMPTS))]), status)
  {
    RunTwo(sha, before, e, OnQueue(Report(ATTEMPTS)));
    ReportLeavesOpen(sha, s, Apply(sha, Run(sha, before), e), how, status);
  }

  // What the last generator of these runs could not do.
  lemma ErrorRuns(sha: X.Body -> string)
    ensures var run, running, report := ClaimRun(ATTEMPTS), ClaimRun(ATTEMPTS) + [Acquire(LAST, Works)], OnQueue(Report(ATTEMPTS));
      && LeftOpen(Run(sha, run + [Acquire(LAST, Fails)] + [report]), X.Queued)
      && LeftOpen(Run(sha, run + [FindNoHandler(LAST)] + [report]), X.Queued)
      && LeftOpen(Run(sha, running + [GiveUp(LAST, Fails)] + [report]), X.Running)
      && LeftOpen(Run(sha, running + [Panic(LAST)] + [report]), X.Running)
  {
    var run, running := ClaimRun(ATTEMPTS), ClaimRun(ATTEMPTS) + [Acquire(LAST, Works)];
    var s := Run(sha, run);
    ClaimsReached(sha, ATTEMPTS);
    RunSnoc(sha, run, Acquire(LAST, Works));
    AcquireWorks(sha, s);
    LastErrors(sha, s, Run(sha, running));
    ErrorRun(sha, s, run, Acquire(LAST, Fails), A.NotAcquired, X.Queued);
    ErrorRun(sha, s, run, FindNoHandler(LAST), A.Unhandled, X.Queued);
    ErrorRun(sha, s, running, GiveUp(LAST, Fails), A.NotMarked, X.Running);
    ErrorRun(sha, s, running, Panic(LAST), A.Panicked, X.Running);
  }

  lemma BuriedRun(sha: X.Body -> string)
    ensures LeftOpen(Run(sha, ClaimRun(ATTEMPTS) + [Acquire(LAST, Works)] + [OnQueue(Bury(ATTEMPTS))]), X.Running)
  {
    var run, s := ClaimRun(ATTEMPTS), Run(sha, ClaimRun(ATTEMPTS));
    RunTwo(sha, run, Acquire(LAST, Works), OnQueue(Bury(ATTEMPTS)));
    ClaimsReached(sha, ATTEMPTS);
    AcquireWorks(sha, s);
    LastBurial(s.jobs, Apply(sha, s, Acquire(LAST, Works)).jobs, GenerateRequest(JOB, "1", 0), EXPORT, ATTEMPTS);
  }

  // All five attempts of a generation job are used up. Then the export stays queued if the last attempt could not
  // acquire it or found no handler, and running if the last attempt could not mark it, panicked, or stopped and was
  // buried by the next claim.
  lemma DeadJobLeavesExportOpen(sha: X.Body -> string)
    ensures var run, running, report := ClaimRun(ATTEMPTS), ClaimRun(ATTEMPTS) + [Acquire(LAST, Works)], OnQueue(Report(ATTEMPTS));
      && LeftOpen(Run(sha, run + [Acquire(LAST, Fails)] + [report]), X.Queued)
      && LeftOpen(Run(sha, run + [FindNoHandler(LAST)] + [report]), X.Queued)
      && LeftOpen(Run(sha, running + [GiveUp(LAST, Fails)] + [report]), X.Running)
      && LeftOpen(Run(sha, running + [Panic(LAST)] + [report]), X.Running)
      && LeftOpen(Run(sha, running + [OnQueue(Bury(ATTEMPTS))]), X.Running)
  {
    ErrorRuns(sha);
    BuriedRun(sha);
  }
}
