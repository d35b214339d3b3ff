/** Attempts at jobs that work on something: what a handler has done for the job its worker holds. */
module JobAttempts {
  import opened Graphs
  import J = JobQueue
  import Q = QueueProtocol

  // How the run of a handler ends for its worker: with success, or with one of several kinds of error.
  datatype Ending =
    | Done
    | Retryable       // attempts are left, so nobody has marked the target
    | Marked          // the target has been marked as failed, or was settled before
    | NotDeleted      // a superseded object could not be deleted
    | NotAcquired     // the target could not be acquired: reported at once, whatever the attempt
    | NotMarked       // the target could not be marked as failed
    | Unhandled       // the worker has no handler for the job, so none ran
    | Panicked        // the handler panicked, which the worker reports like any other error

  datatype Attempt = Pending | Busy | Ended(how: Ending)

  // `targetOf` is what the payloads say; an attempt belongs to the worker that holds the job.
  datatype Jobs = Jobs(queue: Q.System, targetOf: map<Uuid, Uuid>, attempts: map<string, Attempt>)

  predicate HasTarget(s: Jobs, w: string) {
    Q.WorkerOf(s.queue, w).Working? && Q.WorkerOf(s.queue, w).job in s.targetOf
  }

  // The target of the job that w holds, or the nil identifier.
  function TargetOf(s: Jobs, w: string): Uuid {
    if HasTarget(s, w) then s.targetOf[Q.WorkerOf(s.queue, w).job] else 0
  }

  predicate Running(s: Jobs, w: string, a: Attempt) {
    w in s.attempts && s.attempts[w] == a && HasTarget(s, w)
  }

  predicate LastAttempt(s: Jobs, w: string) {
    var state := Q.WorkerOf(s.queue, w);
    state.Working? && state.job in s.queue.rows && state.attempt >= s.queue.rows[state.job].maxAttempts
  }

  function Advance(s: Jobs, w: string, a: Attempt): Jobs {
    s.(attempts := s.attempts[w := a])
  }

  // The worker may answer with `ok` for the job it holds: freely for jobs of other kinds.
  predicate Answers(s: Jobs, w: string, ok: bool) {
    && Q.WorkerOf(s.queue, w).Working?
    && (Q.WorkerOf(s.queue, w).job in s.targetOf ==>
          w in s.attempts && s.attempts[w].Ended? && (ok <==> s.attempts[w].how == Done))
  }

  ghost function Submit(s: Jobs, request: J.Request, target: Uuid): Jobs {
    var queue := Q.Apply(s.queue, Q.Enqueue(request));
    if queue.rows == s.queue.rows then s else s.(queue := queue, targetOf := s.targetOf[request.id := target])
  }

  // A claim of a job with a target starts an attempt; letting go and answering end it.
  ghost function Apply(s: Jobs, e: Q.Event): Jobs {
    var queue := Q.Apply(s.queue, e);
    match e
    case Enqueue(_) => s.(queue := queue)
    case Claim(w, _, _, _, _) =>
      if Q.WorkerOf(s.queue, w).Working? then s
      else if HasTarget(s.(queue := queue), w) then s.(queue := queue, attempts := s.attempts[w := Pending])
      else s.(queue := queue)
    case Heartbeat(_, _, _) => s.(queue := queue)
    case Succeed(w, _) => if Answers(s, w, true) then s.(queue := queue, attempts := s.attempts - {w}) else s
    case Fail(w, _, _, _) => if Answers(s, w, false) then s.(queue := queue, attempts := s.attempts - {w}) else s
    case LetGo(w) => s.(queue := queue, attempts := s.attempts - {w})
  }

  // ---- The invariant ----

  ghost predicate AttemptInv(s: Jobs, w: string, a: Attempt) {
    && HasTarget(s, w) && Q.WorkerOf(s.queue, w).job in s.queue.rows
    && (a == Ended(Retryable) ==> !LastAttempt(s, w))
  }

  ghost predicate Inv(s: Jobs) {
    && Q.Inv(s.queue) && s.targetOf.Keys <= s.queue.rows.Keys
    && forall w :: w in s.attempts ==> AttemptInv(s, w, s.attempts[w])
  }

  lemma RowsStay(q: Q.System, e: Q.Event)
    requires Q.Inv(q)
    ensures forall id :: id in q.rows ==> id in Q.Apply(q, e).rows && Q.Apply(q, e).rows[id].maxAttempts == q.rows[id].maxAttempts
  {
    forall id | id in q.rows ensures id in Q.Apply(q, e).rows && Q.Apply(q, e).rows[id].maxAttempts == q.rows[id].maxAttempts {
      Q.TerminalAbsorbs(q, e, id);
    }
  }

  lemma WorkersStay(q: Q.System, e: Q.Event, w: string)
    requires e.Enqueue? || e.worker != w || e.Heartbeat?
    ensures Q.WorkerOf(Q.Apply(q, e), w) == Q.WorkerOf(q, w)
  {
  }

  lemma TargetsStay(s: Jobs, e: Q.Event)
    ensures Apply(s, e).targetOf == s.targetOf
  {
  }

  // An attempt that goes on is at the same target; a new one has only been claimed.
  lemma AttemptsGoOn(s: Jobs, e: Q.Event, w: string)
    requires Inv(s) && w in Apply(s, e).attempts
    ensures var next := Apply(s, e);
      if w in s.attempts
      then next.attempts[w] == s.attempts[w] && Q.WorkerOf(next.queue, w) == Q.WorkerOf(s.queue, w)
      else next.attempts[w] == Pending && HasTarget(next, w)
  {
    assert w in s.attempts ==> AttemptInv(s, w, s.attempts[w]);
    if e.Enqueue? || e.worker != w || e.Heartbeat? {
      WorkersStay(s.queue, e, w);
    }
  }

  // An attempt ends when it is answered, or given up without an answer.
  lemma AttemptsEnd(s: Jobs, e: Q.Event, w: string)
    requires w in s.attempts && w !in Apply(s, e).attempts && Inv(s)
    ensures s.attempts[w].Ended? || (e.LetGo? && e.worker == w)
  {
    assert AttemptInv(s, w, s.attempts[w]);
  }

  lemma ClaimedRows(s: Jobs, e: Q.Event, w: string)
    requires Inv(s) && Q.Inv(Q.Apply(s.queue, e)) && Q.WorkerOf(Q.Apply(s.queue, e), w).Working?
    ensures Q.WorkerOf(Q.Apply(s.queue, e), w).job in Q.Apply(s.queue, e).rows
  {
    var queue := Q.Apply(s.queue, e);
    assert Q.WorkerInv(queue.rows, w, queue.workers[w]);
  }

  // What an attempt needs to go on in another state.
  lemma AttemptCarriesOver(s: Jobs, next: Jobs, w: string)
    requires w in s.attempts && AttemptInv(s, w, s.attempts[w])
    requires Q.WorkerOf(next.queue, w) == Q.WorkerOf(s.queue, w) && Q.WorkerOf(s.queue, w).job in next.targetOf
    requires var job := Q.WorkerOf(s.queue, w).job;
      job in next.queue.rows && next.queue.rows[job].maxAttempts == s.queue.rows[job].maxAttempts
    ensures AttemptInv(next, w, s.attempts[w])
  {
  }

  lemma QueueRows(s: Jobs, e: Q.Event)
    ensures Apply(s, e).queue == s.queue || Apply(s, e).queue == Q.Apply(s.queue, e)
  {
  }

  lemma ContinuedAttempt(s: Jobs, e: Q.Event, w: string)
    requires Inv(s) && w in Apply(s, e).attempts && w in s.attempts
    ensures AttemptInv(Apply(s, e), w, s.attempts[w])
  {
    AttemptsGoOn(s, e, w);
    TargetsStay(s, e);
    QueueRows(s, e);
    RowsStay(s.queue, e);
    assert AttemptInv(s, w, s.attempts[w]);
    AttemptCarriesOver(s, Apply(s, e), w);
  }

  lemma StepKeepsAttempt(s: Jobs, e: Q.Event, w: string)
    requires Inv(s) && Q.Inv(Q.Apply(s.queue, e)) && w in Apply(s, e).attempts
    ensures AttemptInv(Apply(s, e), w, Apply(s, e).attempts[w])
  {
    AttemptsGoOn(s, e, w);
    if w in s.attempts {
      ContinuedAttempt(s, e, w);
    } else {
      QueueRows(s, e);
      ClaimedRows(s, e, w);
    }
  }

  lemma StepKeepsQueue(s: Jobs, e: Q.Event)
    requires Inv(s)
    ensures Q.Inv(Apply(s, e).queue) && Apply(s, e).targetOf.Keys <= Apply(s, e).queue.rows.Keys
  {
    Q.StepKeepsInv(s.queue, e);
    RowsStay(s.queue, e);
  }

  lemma StepKeepsInv(s: Jobs, e: Q.Event)
    requires Inv(s)
    ensures Inv(Apply(s, e))
  {
    StepKeepsQueue(s, e);
    forall w | w in Apply(s, e).attempts ensures AttemptInv(Apply(s, e), w, Apply(s, e).attempts[w]) {
      Q.StepKeepsInv(s.queue, e);
      StepKeepsAttempt(s, e, w);
    }
  }

  // A new job is nobody's yet.
  lemma SubmitLeavesAttempts(s: Jobs, request: J.Request, target: Uuid)
    requires Inv(s)
    ensures var next := Submit(s, request, target);
      && next.attempts == s.attempts
      && (next != s ==> next.targetOf == s.targetOf[request.id := target] && request.id !in s.targetOf)
      && forall w :: w in s.attempts ==> TargetOf(next, w) == TargetOf(s, w)
  {
    forall w | w in s.attempts ensures TargetOf(Submit(s, request, target), w) == TargetOf(s, w) {
      assert AttemptInv(s, w, s.attempts[w]);
      WorkersStay(s.queue, Q.Enqueue(request), w);
    }
  }

  lemma SubmitLeavesRows(s: Jobs, request: J.Request, target: Uuid, job: Uuid)
    requires job in s.queue.rows
    ensures var next := Submit(s, request, target);
      && job in next.queue.rows && next.queue.rows[job] == s.queue.rows[job]
      && (job in next.targetOf <==> job in s.targetOf)
      && (job in s.targetOf ==> next.targetOf[job] == s.targetOf[job])
  {
  }

  lemma SubmitKeepsAttempt(s: Jobs, request: J.Request, target: Uuid, w: string)
    requires Inv(s) && w in s.attempts
    ensures AttemptInv(Submit(s, request, target), w, s.attempts[w])
  {
    assert AttemptInv(s, w, s.attempts[w]);
    RowsStay(s.queue, Q.Enqueue(request));
    WorkersStay(s.queue, Q.Enqueue(request), w);
    AttemptCarriesOver(s, Submit(s, request, target), w);
  }

  lemma SubmitKeepsInv(s: Jobs, request: J.Request, target: Uuid)
    requires Inv(s)
    ensures Inv(Submit(s, request, target))
  {
    Q.StepKeepsInv(s.queue, Q.Enqueue(request));
    RowsStay(s.queue, Q.Enqueue(request));
    forall w | w in s.attempts ensures AttemptInv(Submit(s, request, target), w, s.attempts[w]) {
      SubmitKeepsAttempt(s, request, target, w);
    }
  }

  lemma AdvanceKeepsInv(s: Jobs, w: string, a: Attempt)
    requires Inv(s) && w in s.attempts && (a == Ended(Retryable) ==> !LastAttempt(s, w))
    ensures Inv(Advance(s, w, a)) && forall v :: TargetOf(Advance(s, w, a), v) == TargetOf(s, v)
  {
    forall v | v in Advance(s, w, a).attempts ensures AttemptInv(Advance(s, w, a), v, Advance(s, w, a).attempts[v]) {
      assert v in s.attempts && AttemptInv(s, v, s.attempts[v]);
    }
  }

  // ---- Deaths ----

  ghost predicate Dies(before: Jobs, after: Jobs, job: Uuid) {
    && job in before.queue.rows && before.queue.rows[job].status != J.Dead
    && job in after.queue.rows && after.queue.rows[job].status == J.Dead
  }

  // The endings after which nobody has settled the target.
  const UNATTENDED: set<Ending> := {NotAcquired, NotMarked, Unhandled, Panicked}

  // The deaths that nobody answers for: a claim buries the job after its last lease, or the last attempt reports an
  // error although it could not acquire its target, could not mark it, found no handler or panicked.
  predicate Unattended(s: Jobs, e: Q.Event, job: Uuid) {
    || (e.Claim? && job in s.queue.rows && J.Exhausted(s.queue.rows[job], e.now))
    || (e.Fail? && Q.WorkerOf(s.queue, e.worker).Working? && Q.WorkerOf(s.queue, e.worker).job == job &&
        e.worker in s.attempts && s.attempts[e.worker].Ended? && s.attempts[e.worker].how in UNATTENDED)
  }

  // A job dies by a claim that buries it, or by the answer of its last attempt.
  lemma DeathIsAnswerOrBurial(s: Jobs, e: Q.Event, job: Uuid)
    requires Inv(s) && Dies(s, Apply(s, e), job)
    ensures (e.Claim? && J.Exhausted(s.queue.rows[job], e.now)) || (e.Fail? && Answers(s, e.worker, false))
  {
    Q.HowJobsDie(s.queue, e, job);
  }

  // A death that is not unattended is the answer of a last attempt that has marked its target, or found it settled.
  lemma AttendedDeath(s: Jobs, e: Q.Event, job: Uuid)
    requires Inv(s) && Dies(s, Apply(s, e), job) && job in s.targetOf && !Unattended(s, e, job)
    ensures e.Fail? && e.worker in s.attempts && s.attempts[e.worker] in {Ended(Marked), Ended(NotDeleted)}
    ensures TargetOf(s, e.worker) == s.targetOf[job]
  {
    Q.HowJobsDie(s.queue, e, job);
    assert AttemptInv(s, e.worker, s.attempts[e.worker]);
    assert Q.WorkerInv(s.queue.rows, e.worker, s.queue.workers[e.worker]);
  }

  lemma NewJobsAreQueued(q: Q.System, e: Q.Event, job: Uuid)
    requires job !in q.rows && job in Q.Apply(q, e).rows
    ensures Q.Apply(q, e).rows[job].status == J.Queued
  {
  }

  lemma NewJobIsNotDead(s: Jobs, e: Q.Event, job: Uuid)
    requires job !in s.queue.rows && job in Apply(s, e).queue.rows
    ensures Apply(s, e).queue.rows[job].status != J.Dead
  {
    NewJobsAreQueued(s.queue, e, job);
  }
}
