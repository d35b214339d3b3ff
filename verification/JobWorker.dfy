/** The worker as a program: one claimed job from heartbeat to acknowledgement, while everybody else goes on. */
module JobWorker {
  import opened Texts
  import opened Faults
  import J = JobQueue
  import Q = QueueProtocol

  datatype Handled = Success | Failure(message: string) | Panicked(reason: string) | Canceled

  datatype Outcome = LeaseLost | GaveUp | AckError | Done | Retry | Died

  // Clock readings at the heartbeats and at the acknowledgement, how these calls go, and what everybody else does
  // before each of them.
  datatype Circumstances = Circumstances(ticks: seq<int>, beats: nat -> Fault, ackNow: int, ack: Fault,
                                         others: nat -> seq<Q.Event>)

  // A panic of the handler is an error like any other.
  function ErrorMessage(handled: Handled): string {
    match handled
    case Failure(message) => message
    case Panicked(reason) => "background job handler panic: " + reason
    case _ => ""
  }

  predicate By(e: Q.Event, w: string) {
    !e.Enqueue? && e.worker == w
  }

  ghost predicate ByOthers(c: Circumstances, w: string) {
    forall n, e :: e in c.others(n) ==> !By(e, w)
  }

  // Every call works, and nobody else does anything in between.
  ghost predicate Undisturbed(c: Circumstances) {
    c.ack == Works && forall n :: c.beats(n) == Works && c.others(n) == []
  }

  // From the i-th heartbeat on, every call comes before the lease that the one before it left is over.
  predicate Timely(c: Circumstances, leaseDuration: int, lease: int, i: nat)
    requires i <= |c.ticks|
    decreases |c.ticks| - i
  {
    if i == |c.ticks| then c.ackNow < lease
    else c.ticks[i] < lease && Timely(c, leaseDuration, c.ticks[i] + leaseDuration, i + 1)
  }

  // The worker holds its job, with a lease that lasts through the run.
  predicate HoldsThrough(s: Q.System, w: string, c: Circumstances, leaseDuration: int, i: nat)
    requires i <= |c.ticks|
  {
    && Q.WorkerOf(s, w).Working? && Q.WorkerOf(s, w).job in s.rows
    && var row := s.rows[Q.WorkerOf(s, w).job];
       row.status == J.Running && row.lockedBy == Some(w) && row.lease.Some? && Timely(c, leaseDuration, row.lease.value, i)
  }

  lemma OthersLeaveWorker(s: Q.System, e: Q.Event, w: string)
    requires !By(e, w)
    ensures Q.WorkerOf(Q.Apply(s, e), w) == Q.WorkerOf(s, w)
  {
  }

  // An acknowledgement that passes the row guard concerns the very attempt the worker works on.
  lemma GuardFences(s: Q.System, w: string, now: int)
    requires Q.Inv(s) && Q.WorkerOf(s, w).Working? && J.Holds(s.rows, Q.WorkerOf(s, w).job, w, now)
    ensures s.rows[Q.WorkerOf(s, w).job].attempts == Q.WorkerOf(s, w).attempt
  {
    assert Q.WorkerInv(s.rows, w, s.workers[w]);
  }

  // The job's row shows this end of exactly the attempt the worker had claimed.
  ghost predicate Recorded(s: Q.System, work: Q.Worker, status: J.Status) {
    work.Working? && work.job in s.rows && s.rows[work.job].status == status && s.rows[work.job].attempts == work.attempt
  }

  lemma {:induction false} DelayIsPositive(baseDelay: nat, maximumDelay: nat, attempt: int)
    requires 0 < baseDelay <= maximumDelay
    ensures attempt >= 1 ==> baseDelay * J.Power2(attempt - 1) > 0
  {
    if attempt >= 1 {
      J.DelayGrows(baseDelay, 1, attempt);
    }
  }

  // Where a worker stands that started in `start` and whose first n heartbeats have worked.
  ghost predicate Beating(start: Q.System, s: Q.System, w: string, leaseDuration: int, c: Circumstances, n: nat)
    requires n <= |c.ticks|
  {
    && Q.Inv(s) && Q.WorkerOf(s, w).Working? && Q.WorkerOf(s, w) == Q.WorkerOf(start, w)
    && (n > 0 ==> c.beats(n - 1) == Works && J.Holds(s.rows, Q.WorkerOf(s, w).job, w, c.ticks[n - 1]))
    && (Undisturbed(c) && HoldsThrough(start, w, c, leaseDuration, 0) ==> HoldsThrough(s, w, c, leaseDuration, n))
  }

  // A heartbeat leaves the worker with its job, and extends a lease that it finds.
  lemma AfterHeartbeat(s: Q.System, w: string, leaseDuration: int, c: Circumstances, n: nat)
    requires n < |c.ticks| && Q.WorkerOf(s, w).Working? && leaseDuration > 0
    ensures var next, job := Q.Apply(s, Q.Heartbeat(w, c.ticks[n], c.ticks[n] + leaseDuration)), Q.WorkerOf(s, w).job;
      && Q.WorkerOf(next, w) == Q.WorkerOf(s, w)
      && (J.Holds(next.rows, job, w, c.ticks[n]) <==> J.Holds(s.rows, job, w, c.ticks[n]))
      && (HoldsThrough(s, w, c, leaseDuration, n) ==>
            J.Holds(s.rows, job, w, c.ticks[n]) && HoldsThrough(next, w, c, leaseDuration, n + 1))
  {
  }

  class Worker {
    var s: Q.System
    const name: string

    constructor (name: string, s: Q.System)
      ensures this.name == name && this.s == s
    {
      this.name := name;
      this.s := s;
    }

    method Step(e: Q.Event)
      requires Q.Inv(s)
      modifies this
      ensures s == Q.Apply(old(s), e) && Q.Inv(s)
    {
      Q.StepKeepsInv(s, e);
      s := Q.Apply(s, e);
    }

    method Others(events: seq<Q.Event>)
      requires Q.Inv(s) && forall e :: e in events ==> !By(e, name)
      modifies this
      ensures Q.Inv(s) && Q.WorkerOf(s, name) == Q.WorkerOf(old(s), name)
      ensures events == [] ==> s == old(s)
    {
      for i := 0 to |events|
        invariant Q.Inv(s) && Q.WorkerOf(s, name) == Q.WorkerOf(old(s), name)
        invariant i == 0 ==> s == old(s)
      {
        OthersLeaveWorker(s, events[i], name);
        Step(events[i]);
      }
    }

    // The heartbeat at one tick.
    method Beat(leaseDuration: int, c: Circumstances, n: nat, ghost start: Q.System) returns (ok: bool)
      requires n < |c.ticks| && Beating(start, s, name, leaseDuration, c, n) && ByOthers(c, name) && leaseDuration > 0
      modifies this
      ensures Q.Inv(s) && Q.WorkerOf(s, name) == Q.WorkerOf(old(s), name)
      ensures ok <==> c.beats(n) == Works && J.Holds(s.rows, Q.WorkerOf(s, name).job, name, c.ticks[n])
      ensures ok ==> Beating(start, s, name, leaseDuration, c, n + 1)
      ensures Undisturbed(c) && HoldsThrough(start, name, c, leaseDuration, 0) ==> ok
    {
      Others(c.others(n));
      AfterHeartbeat(s, name, leaseDuration, c, n);
      ok := J.Holds(s.rows, Q.WorkerOf(s, name).job, name, c.ticks[n]) && c.beats(n) == Works;
      if c.beats(n) != Fails {
        Step(Q.Heartbeat(name, c.ticks[n], c.ticks[n] + leaseDuration));
      }
    }

    // Heartbeats until one reports an error: the lease is gone, or the call failed. `n` of them have worked.
    method Heartbeats(leaseDuration: int, c: Circumstances) returns (lost: bool, n: nat)
      requires Q.Inv(s) && Q.WorkerOf(s, name).Working? && ByOthers(c, name) && leaseDuration > 0
      modifies this
      ensures Q.Inv(s) && Q.WorkerOf(s, name) == Q.WorkerOf(old(s), name)
      ensures n <= |c.ticks| && (lost <==> n < |c.ticks|) && forall i :: 0 <= i < n ==> c.beats(i) == Works
      ensures lost ==> c.beats(n) != Works || !J.Holds(s.rows, Q.WorkerOf(s, name).job, name, c.ticks[n])
      ensures !lost ==> Beating(old(s), s, name, leaseDuration, c, |c.ticks|)
      ensures Undisturbed(c) && HoldsThrough(old(s), name, c, leaseDuration, 0) ==> !lost
    {
      ghost var start := s;
      n := 0;
      while n < |c.ticks|
        invariant n <= |c.ticks| && Beating(start, s, name, leaseDuration, c, n)
        invariant forall i :: 0 <= i < n ==> c.beats(i) == Works
      {
        var ok := Beat(leaseDuration, c, n, start);
        if !ok {
          return true, n;
        }
        n := n + 1;
      }
      lost := false;
    }

    // The acknowledgement of a job whose handler succeeded.
    method Acknowledge(now: int, ack: Fault) returns (outcome: Outcome)
      requires Q.Inv(s) && Q.WorkerOf(s, name).Working?
      modifies this
      ensures Q.Inv(s) && Q.WorkerOf(s, name) == Q.Idle
      ensures outcome in {AckError, Done}
      ensures outcome == Done ==> Recorded(s, Q.WorkerOf(old(s), name), J.Succeeded)
      ensures outcome == Done <==> ack == Works && J.Holds(old(s).rows, Q.WorkerOf(old(s), name).job, name, now)
    {
      var state := Q.WorkerOf(s, name);
      var held := J.Holds(s.rows, state.job, name, now);
      if held {
        GuardFences(s, name, now);
      }
      if ack == Fails {
        Step(Q.LetGo(name));
        return AckError;
      }
      Step(Q.Succeed(name, now));
      outcome := if held && ack == Works then Done else AckError;
    }

    // A failed attempt: the job waits for its next one, or dies with its last.
    method RecordFailure(message: string, availableAt: int, now: int, ack: Fault) returns (outcome: Outcome)
      requires Q.Inv(s) && Q.WorkerOf(s, name).Working?
      modifies this
      ensures Q.Inv(s) && Q.WorkerOf(s, name) == Q.Idle
      ensures outcome in {AckError, Retry, Died}
      ensures outcome == Retry ==>
        && Recorded(s, Q.WorkerOf(old(s), name), J.Failed)
        && s.rows[Q.WorkerOf(old(s), name).job].availableAt == availableAt
        && Q.WorkerOf(old(s), name).attempt < s.rows[Q.WorkerOf(old(s), name).job].maxAttempts
      ensures outcome == Died ==>
        && Recorded(s, Q.WorkerOf(old(s), name), J.Dead)
        && Q.WorkerOf(old(s), name).attempt == s.rows[Q.WorkerOf(old(s), name).job].maxAttempts
      ensures outcome != AckError <==> ack == Works && J.Holds(old(s).rows, Q.WorkerOf(old(s), name).job, name, now)
    {
      var state := Q.WorkerOf(s, name);
      var held := J.Holds(s.rows, state.job, name, now);
      if held {
        GuardFences(s, name, now);
        assert Q.RowInv(s.rows[state.job]);
      }
      if ack == Fails {
        Step(Q.LetGo(name));
        return AckError;
      }
      Step(Q.Fail(name, message, availableAt, now));
      if !held || ack != Works {
        return AckError;
      }
      outcome := if s.rows[state.job].status == J.Dead then Died else Retry;
    }

    // What the worker reports about a handler that has returned.
    method Answer(handled: Handled, baseDelay: nat, maximumDelay: nat, c: Circumstances) returns (outcome: Outcome)
      requires Q.Inv(s) && Q.WorkerOf(s, name).Working? && handled != Canceled && 0 < baseDelay <= maximumDelay
      modifies this
      ensures Q.Inv(s) && Q.WorkerOf(s, name) == Q.Idle
      ensures outcome in if handled == Success then {AckError, Done} else {AckError, Retry, Died}
      ensures outcome == Done ==> Recorded(s, Q.WorkerOf(old(s), name), J.Succeeded)
      ensures outcome == Retry ==>
        && Recorded(s, Q.WorkerOf(old(s), name), J.Failed)
        && c.ackNow < s.rows[Q.WorkerOf(old(s), name).job].availableAt <= c.ackNow + maximumDelay
      ensures outcome == Died ==>
        && Recorded(s, Q.WorkerOf(old(s), name), J.Dead)
        && Q.WorkerOf(old(s), name).attempt == s.rows[Q.WorkerOf(old(s), name).job].maxAttempts
      ensures outcome != AckError <==> c.ack == Works && J.Holds(old(s).rows, Q.WorkerOf(old(s), name).job, name, c.ackNow)
    {
      if handled == Success {
        outcome := Acknowledge(c.ackNow, c.ack);
        return;
      }
      var delay := J.RetryDelay(baseDelay, maximumDelay, Q.WorkerOf(s, name).attempt);
      DelayIsPositive(baseDelay, maximumDelay, Q.WorkerOf(s, name).attempt);
      outcome := RecordFailure(ErrorMessage(handled), c.ackNow + delay, c.ackNow, c.ack);
    }

    // One job, from claim to acknowledgement. Whatever is reported about it was recorded for the very attempt this
    // worker had claimed, and afterwards the worker is free. A worker that nothing disturbs and whose lease lasts
    // does report.
    method Process(handled: Handled, leaseDuration: int, baseDelay: nat, maximumDelay: nat, c: Circumstances)
        returns (outcome: Outcome)
      requires Q.Inv(s) && Q.WorkerOf(s, name).Working? && ByOthers(c, name)
      requires leaseDuration > 0 && 0 < baseDelay <= maximumDelay
      modifies this
      ensures Q.Inv(s) && Q.WorkerOf(s, name) == Q.Idle
      ensures outcome == Done ==> handled == Success && Recorded(s, Q.WorkerOf(old(s), name), J.Succeeded)
      ensures outcome == Retry ==>
        && Recorded(s, Q.WorkerOf(old(s), name), J.Failed)
        && c.ackNow < s.rows[Q.WorkerOf(old(s), name).job].availableAt <= c.ackNow + maximumDelay
      ensures outcome == Died ==>
        && Recorded(s, Q.WorkerOf(old(s), name), J.Dead)
        && Q.WorkerOf(old(s), name).attempt == s.rows[Q.WorkerOf(old(s), name).job].maxAttempts
      ensures Undisturbed(c) && HoldsThrough(old(s), name, c, leaseDuration, 0) ==>
        match handled
        case Success => outcome == Done
        case Failure(_) => outcome == Retry || outcome == Died
        case Panicked(_) => outcome == Retry || outcome == Died
        case Canceled => outcome == GaveUp
    {
      var lost, beats := Heartbeats(leaseDuration, c);
      if lost || handled == Canceled {
        Step(Q.LetGo(name));
        return if lost then LeaseLost else GaveUp;
      }
      Others(c.others(|c.ticks|));
      outcome := Answer(handled, baseDelay, maximumDelay, c);
    }
  }
}
