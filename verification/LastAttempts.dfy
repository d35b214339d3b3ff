/** A job whose attempts are used up: one worker after the other claims it and lets the lease run out. */
module LastAttempts {
  import opened Graphs
  import opened Texts
  import J = JobQueue
  import Q = QueueProtocol
  import A = JobAttempts

  // One name for each worker.
  function Name(k: nat): string {
    seq(k, i => 'w')
  }

  lemma NamesDiffer(j: nat, k: nat)
    requires j != k
    ensures Name(j) != Name(k)
  {
    assert |Name(j)| == j && |Name(k)| == k;
  }

  // The claim of the k-th worker.
  function Take(job: Uuid, k: nat): Q.Event {
    Q.Claim(Name(k), 60 * (k - 1), 60 * k, Some(job), true)
  }

  // The report of the k-th worker, in time.
  function Report(k: nat): Q.Event {
    Q.Fail(Name(k), "", 0, 60 * k - 1)
  }

  // A further claim after the k-th lease, which finds nothing to take.
  function Bury(k: nat): Q.Event {
    Q.Claim(Name(k + 1), 60 * k, 60 * (k + 1), None, false)
  }

  function LentRow(request: J.Request, k: nat): J.Job {
    var job := J.NewJob(request);
    if k == 0 then job else job.(status := J.Running, attempts := k, lease := Some(60 * k), lockedBy := Some(Name(k)))
  }

  // Where the queue stands after k claims.
  ghost predicate AfterClaims(s: A.Jobs, request: J.Request, target: Uuid, k: nat) {
    && s.queue.rows == map[request.id := LentRow(request, k)] && s.targetOf == map[request.id := target]
    && (forall j :: j > k ==> Q.WorkerOf(s.queue, Name(j)) == Q.Idle)
    && (k > 0 ==> A.Running(s, Name(k), A.Pending) && Q.WorkerOf(s.queue, Name(k)) == Q.Working(request.id, k))
  }

  lemma ClaimOnQueue(q: Q.System, request: J.Request, k: nat)
    requires k < request.maxAttempts && request.availableAt <= 0
    requires q.rows == map[request.id := LentRow(request, k)] && Q.WorkerOf(q, Name(k + 1)) == Q.Idle
    ensures var next := Q.Apply(q, Take(request.id, k + 1));
      && next.rows == map[request.id := LentRow(request, k + 1)]
      && next.workers == q.workers[Name(k + 1) := Q.Working(request.id, k + 1)]
  {
    assert J.Claimable(q.rows[request.id], 60 * k);
  }

  lemma OneClaim(s: A.Jobs, request: J.Request, target: Uuid, k: nat)
    requires k < request.maxAttempts && request.availableAt <= 0 && AfterClaims(s, request, target, k)
    ensures AfterClaims(A.Apply(s, Take(request.id, k + 1)), request, target, k + 1)
  {
    ClaimOnQueue(s.queue, request, k);
    forall j | j > k + 1 ensures Name(j) != Name(k + 1) {
      NamesDiffer(j, k + 1);
    }
  }

  ghost predicate IsDead(s: A.Jobs, job: Uuid) {
    job in s.queue.rows && s.queue.rows[job].status == J.Dead
  }

  // The report of the last attempt ends the job, whatever the error was.
  lemma LastReport(s: A.Jobs, request: J.Request, target: Uuid, k: nat, how: A.Ending)
    requires k > 0 && k == request.maxAttempts && AfterClaims(s, request, target, k) && how != A.Done
    ensures var next := A.Apply(A.Advance(s, Name(k), A.Ended(how)), Report(k));
      IsDead(next, request.id) && next.targetOf == s.targetOf
  {
  }

  lemma LastBurial(s: A.Jobs, t: A.Jobs, request: J.Request, target: Uuid, k: nat)
    requires k > 0 && k == request.maxAttempts && AfterClaims(s, request, target, k)
    requires t.queue == s.queue && t.targetOf == s.targetOf
    ensures IsDead(A.Apply(t, Bury(k)), request.id) && A.Apply(t, Bury(k)).targetOf == s.targetOf
  {
  }
}
