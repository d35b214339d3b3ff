/** Many sequential workers on one job table: fencing, absorbing states and bounded progress. */
module QueueProtocol {
  import opened Graphs
  import opened JobQueue
  import opened Texts

  // What a worker process is doing. It claims its next job only after it has let go of the last one.
  datatype Worker = Idle | Working(job: Uuid, attempt: int)

  datatype ClaimRecord = ClaimRecord(job: Uuid, worker: string, attempt: int)

  // `log` lists every effective claim since the start.
  datatype System = System(rows: Table, workers: map<string, Worker>, log: seq<ClaimRecord>)

  datatype Event =
    | Enqueue(request: Request)
    | Claim(worker: string, now: int, until: int, pick: Option<Uuid>, delivered: bool)
    | Heartbeat(worker: string, now: int, until: int)
    | Succeed(worker: string, now: int)
    | Fail(worker: string, message: string, availableAt: int, now: int)
    | LetGo(worker: string)

  function WorkerOf(s: System, w: string): Worker {
    if w in s.workers then s.workers[w] else Idle
  }

  function SetWorker(s: System, w: string, state: Worker): System {
    s.(workers := s.workers[w := state])
  }

  // Clock readings are arbitrary in every event. A claim whose answer is lost leaves the worker idle; heartbeats
  // and acknowledgements name the job the worker holds; an acknowledgement, effective or not, ends the work.
  function Apply(s: System, e: Event): System {
    match e
    case Enqueue(request) => s.(rows := EnqueueRows(s.rows, request))
    case Claim(w, now, until, pick, delivered) =>
      if WorkerOf(s, w).Working? then s else
      var next := s.(rows := ClaimRows(s.rows, w, now, until, pick));
      if pick.Some? && pick.value in s.rows && Claimable(s.rows[pick.value], now) then
        var attempt := s.rows[pick.value].attempts + 1;
        var logged := next.(log := s.log + [ClaimRecord(pick.value, w, attempt)]);
        if delivered then SetWorker(logged, w, Working(pick.value, attempt)) else logged
      else next
    case Heartbeat(w, now, until) =>
      if WorkerOf(s, w).Working? then s.(rows := HeartbeatRows(s.rows, WorkerOf(s, w).job, w, now, until)) else s
    case Succeed(w, now) =>
      if WorkerOf(s, w).Working?
      then SetWorker(s.(rows := SucceedRows(s.rows, WorkerOf(s, w).job, w, now)), w, Idle) else s
    case Fail(w, message, availableAt, now) =>
      if WorkerOf(s, w).Working?
      then SetWorker(s.(rows := FailRows(s.rows, WorkerOf(s, w).job, w, message, availableAt, now)), w, Idle) else s
    case LetGo(w) => SetWorker(s, w, Idle)
  }

  // ---- Histories of claims ----

  ghost function ClaimCount(log: seq<ClaimRecord>, job: Uuid): nat {
    if log == [] then 0
    else ClaimCount(log[..|log| - 1], job) + if log[|log| - 1].job == job then 1 else 0
  }

  ghost function LatestClaim(log: seq<ClaimRecord>, job: Uuid): Option<ClaimRecord> {
    if log == [] then None
    else if log[|log| - 1].job == job then Some(log[|log| - 1])
    else LatestClaim(log[..|log| - 1], job)
  }

  lemma LogGrows(log: seq<ClaimRecord>, r: ClaimRecord, job: Uuid)
    ensures ClaimCount(log + [r], job) == ClaimCount(log, job) + if r.job == job then 1 else 0
    ensures LatestClaim(log + [r], job) == if r.job == job then Some(r) else LatestClaim(log, job)
  {
    assert (log + [r])[..|log + [r]| - 1] == log;
  }

  // ---- The invariant ----

  // What every row satisfies; the table's CHECK constraints on lease, lock and completion are part of it.
  ghost predicate RowInv(job: Job) {
    && 0 <= job.attempts <= job.maxAttempts && job.maxAttempts >= 1
    && (job.status == Running <==> job.lease.Some?) && (job.status == Running <==> job.lockedBy.Some?)
    && (Terminal(job) <==> job.completedAt.Some?)
    && (job.status == Queued <==> job.attempts == 0)
    && (job.status == Failed ==> job.attempts < job.maxAttempts)
    && (job.status == Dead ==> job.attempts == job.maxAttempts)
  }

  ghost predicate HistoryInv(rows: Table, log: seq<ClaimRecord>, id: Uuid) {
    && id in rows
    && ClaimCount(log, id) == rows[id].attempts
    && (rows[id].status == Running ==>
          && rows[id].lockedBy.Some?
          && LatestClaim(log, id) == Some(ClaimRecord(id, rows[id].lockedBy.value, rows[id].attempts)))
  }

  // A worker's attempt is never ahead of its job, and if the job is locked by that worker, it is that very attempt.
  ghost predicate WorkerInv(rows: Table, w: string, state: Worker) {
    state.Working? ==>
      && state.job in rows && state.attempt <= rows[state.job].attempts
      && (rows[state.job].status == Running && rows[state.job].lockedBy == Some(w) ==> state.attempt == rows[state.job].attempts)
  }

  ghost predicate KeysUnique(rows: Table) {
    forall a, b :: a in rows && b in rows && a != b && rows[a].deduplicationKey.Some? ==>
      rows[a].deduplicationKey != rows[b].deduplicationKey || rows[a].kind != rows[b].kind
  }

  ghost predicate Inv(s: System) {
    && (forall id :: id in s.rows ==> RowInv(s.rows[id]) && HistoryInv(s.rows, s.log, id))
    && (forall id :: id !in s.rows ==> ClaimCount(s.log, id) == 0)
    && (forall w :: w in s.workers ==> WorkerInv(s.rows, w, s.workers[w]))
    && KeysUnique(s.rows)
  }

  lemma ClaimedRowInv(rows: Table, w: string, now: int, until: int, pick: Option<Uuid>, id: Uuid)
    requires id in rows && RowInv(rows[id])
    ensures RowInv(ClaimRows(rows, w, now, until, pick)[id])
  {
  }

  lemma ClaimedHistory(rows: Table, log: seq<ClaimRecord>, w: string, now: int, until: int, pick: Option<Uuid>, id: Uuid)
    requires id in rows && RowInv(rows[id]) && HistoryInv(rows, log, id)
    ensures var effective := pick.Some? && pick.value in rows && Claimable(rows[pick.value], now);
      var grown := if effective then log + [ClaimRecord(pick.value, w, rows[pick.value].attempts + 1)] else log;
      HistoryInv(ClaimRows(rows, w, now, until, pick), grown, id)
  {
    if pick.Some? && pick.value in rows {
      LogGrows(log, ClaimRecord(pick.value, w, rows[pick.value].attempts + 1), id);
    }
  }

  lemma ClaimedRow(s: System, w: string, now: int, until: int, pick: Option<Uuid>, id: Uuid)
    requires Inv(s) && id in s.rows
    ensures var rows := ClaimRows(s.rows, w, now, until, pick);
      var effective := pick.Some? && pick.value in s.rows && Claimable(s.rows[pick.value], now);
      var log := if effective then s.log + [ClaimRecord(pick.value, w, s.rows[pick.value].attempts + 1)] else s.log;
      RowInv(rows[id]) && HistoryInv(rows, log, id)
  {
    assert HistoryInv(s.rows, s.log, id) && RowInv(s.rows[id]);
    ClaimedRowInv(s.rows, w, now, until, pick, id);
    ClaimedHistory(s.rows, s.log, w, now, until, pick, id);
  }

  lemma ClaimedWorkers(s: System, w: string, now: int, until: int, pick: Option<Uuid>)
    requires Inv(s) && !WorkerOf(s, w).Working?
    ensures var rows := ClaimRows(s.rows, w, now, until, pick);
      forall v :: v in s.workers ==> WorkerInv(rows, v, s.workers[v])
  {
    var rows := ClaimRows(s.rows, w, now, until, pick);
    forall v | v in s.workers ensures WorkerInv(rows, v, s.workers[v]) {
      assert WorkerInv(s.rows, v, s.workers[v]);
    }
  }

  lemma ClaimedKeys(rows: Table, w: string, now: int, until: int, pick: Option<Uuid>)
    requires KeysUnique(rows)
    ensures KeysUnique(ClaimRows(rows, w, now, until, pick))
  {
    var next := ClaimRows(rows, w, now, until, pick);
    forall id | id in next
      ensures next[id].deduplicationKey == rows[id].deduplicationKey && next[id].kind == rows[id].kind
    {
    }
  }

  // The claim as the table sees it, before its answer reaches the worker.
  ghost function Claimed(s: System, w: string, now: int, until: int, pick: Option<Uuid>): System {
    var effective := pick.Some? && pick.value in s.rows && Claimable(s.rows[pick.value], now);
    System(ClaimRows(s.rows, w, now, until, pick), s.workers,
           if effective then s.log + [ClaimRecord(pick.value, w, s.rows[pick.value].attempts + 1)] else s.log)
  }

  lemma ClaimedKeepsInv(s: System, w: string, now: int, until: int, pick: Option<Uuid>)
    requires Inv(s) && !WorkerOf(s, w).Working?
    ensures Inv(Claimed(s, w, now, until, pick))
  {
    var next := Claimed(s, w, now, until, pick);
    forall id | id in next.rows ensures RowInv(next.rows[id]) && HistoryInv(next.rows, next.log, id) {
      ClaimedRow(s, w, now, until, pick, id);
    }
    forall id | id !in next.rows ensures ClaimCount(next.log, id) == 0 {
      if pick.Some? && pick.value in s.rows {
        LogGrows(s.log, ClaimRecord(pick.value, w, s.rows[pick.value].attempts + 1), id);
      }
    }
    ClaimedWorkers(s, w, now, until, pick);
    ClaimedKeys(s.rows, w, now, until, pick);
  }

  lemma WorkerKeepsInv(s: System, w: string, state: Worker)
    requires Inv(s) && WorkerInv(s.rows, w, state)
    ensures Inv(SetWorker(s, w, state))
  {
  }

  lemma ClaimKeepsInv(s: System, w: string, now: int, until: int, pick: Option<Uuid>, delivered: bool)
    requires Inv(s)
    ensures Inv(Apply(s, Claim(w, now, until, pick, delivered)))
  {
    if !WorkerOf(s, w).Working? {
      var next := Claimed(s, w, now, until, pick);
      ClaimedKeepsInv(s, w, now, until, pick);
      if delivered && pick.Some? && pick.value in s.rows && Claimable(s.rows[pick.value], now) {
        var attempt := s.rows[pick.value].attempts + 1;
        assert next.rows[pick.value] == Lend(s.rows[pick.value], w, until);
        WorkerKeepsInv(next, w, Working(pick.value, attempt));
        assert Apply(s, Claim(w, now, until, pick, delivered)) == SetWorker(next, w, Working(pick.value, attempt));
      } else {
        assert Apply(s, Claim(w, now, until, pick, delivered)) == next;
      }
    }
  }

  lemma UpdateKeepsInv(s: System, id: Uuid, job: Job)
    requires Inv(s) && id in s.rows && RowInv(job)
    requires job.attempts == s.rows[id].attempts && job.kind == s.rows[id].kind
    requires job.deduplicationKey == s.rows[id].deduplicationKey
    requires job.status == Running ==> s.rows[id].status == Running && job.lockedBy == s.rows[id].lockedBy
    ensures Inv(s.(rows := s.rows[id := job]))
  {
    var rows := s.rows[id := job];
    forall other | other in rows ensures RowInv(rows[other]) && HistoryInv(rows, s.log, other) {
      assert HistoryInv(s.rows, s.log, other);
    }
    forall w | w in s.workers ensures WorkerInv(rows, w, s.workers[w]) {
      assert WorkerInv(s.rows, w, s.workers[w]);
    }
  }

  lemma EnqueueKeepsInv(s: System, request: Request)
    requires Inv(s)
    ensures Inv(Apply(s, Enqueue(request)))
  {
    var rows := EnqueueRows(s.rows, request);
    if rows != s.rows {
      forall id | id in rows ensures RowInv(rows[id]) && HistoryInv(rows, s.log, id) {
        assert id in s.rows ==> HistoryInv(s.rows, s.log, id);
      }
      forall w | w in s.workers ensures WorkerInv(rows, w, s.workers[w]) {
        assert WorkerInv(s.rows, w, s.workers[w]);
      }
    }
  }

  // The three statements that need the row guard.
  lemma HolderKeepsInv(s: System, job: Uuid, w: string, now: int, other: int, message: string)
    requires Inv(s)
    ensures Inv(s.(rows := HeartbeatRows(s.rows, job, w, now, other)))
    ensures Inv(s.(rows := SucceedRows(s.rows, job, w, now)))
    ensures Inv(s.(rows := FailRows(s.rows, job, w, message, other, now)))
  {
    if Holds(s.rows, job, w, now) {
      assert RowInv(s.rows[job]);
      UpdateKeepsInv(s, job, HeartbeatRows(s.rows, job, w, now, other)[job]);
      UpdateKeepsInv(s, job, SucceedRows(s.rows, job, w, now)[job]);
      UpdateKeepsInv(s, job, FailRows(s.rows, job, w, message, other, now)[job]);
    } else {
      assert s.(rows := s.rows) == s;
    }
  }

  // An acknowledgement moves the guarded row and lets go of the worker.
  lemma AnswerKeepsInv(s: System, e: Event)
    requires Inv(s) && (e.Succeed? || e.Fail?)
    ensures Inv(Apply(s, e))
  {
    if WorkerOf(s, e.worker).Working? {
      var message, at := if e.Fail? then e.message else "", if e.Fail? then e.availableAt else 0;
      var id := WorkerOf(s, e.worker).job;
      HolderKeepsInv(s, id, e.worker, e.now, at, message);
      if e.Succeed? {
        WorkerKeepsInv(s.(rows := SucceedRows(s.rows, id, e.worker, e.now)), e.worker, Idle);
      } else {
        WorkerKeepsInv(s.(rows := FailRows(s.rows, id, e.worker, message, at, e.now)), e.worker, Idle);
      }
    }
  }

  lemma HeartbeatKeepsInv(s: System, w: string, now: int, until: int)
    requires Inv(s)
    ensures Inv(Apply(s, Heartbeat(w, now, until)))
  {
    if WorkerOf(s, w).Working? {
      HolderKeepsInv(s, WorkerOf(s, w).job, w, now, until, "");
    }
  }

  lemma StepKeepsInv(s: System, e: Event)
    requires Inv(s)
    ensures Inv(Apply(s, e))
  {
    match e
    case Enqueue(request) => EnqueueKeepsInv(s, request);
    case Claim(w, now, until, pick, delivered) => ClaimKeepsInv(s, w, now, until, pick, delivered);
    case Heartbeat(w, now, until) => HeartbeatKeepsInv(s, w, now, until);
    case Succeed(_, _) => AnswerKeepsInv(s, e);
    case Fail(_, _, _, _) => AnswerKeepsInv(s, e);
    case LetGo(w) => WorkerKeepsInv(s, w, Idle);
  }

  ghost function Run(s: System, events: seq<Event>): System {
    if events == [] then s else Apply(Run(s, events[..|events| - 1]), events[|events| - 1])
  }

  const EMPTY := System(map[], map[], [])

  lemma {:induction false} RunsKeepInv(events: seq<Event>)
    ensures Inv(Run(EMPTY, events))
  {
    if events != [] {
      RunsKeepInv(events[..|events| - 1]);
      StepKeepsInv(Run(EMPTY, events[..|events| - 1]), events[|events| - 1]);
    }
  }

  // ---- Fencing ----

  // In any run under any clocks: whoever passes the row guard for the job it works on is the job's latest
  // claimant, on its latest attempt. A worker whose job was claimed again never passes.
  lemma Fencing(events: seq<Event>, w: string, now: int)
    requires WorkerOf(Run(EMPTY, events), w).Working?
    requires Holds(Run(EMPTY, events).rows, WorkerOf(Run(EMPTY, events), w).job, w, now)
    ensures var s := Run(EMPTY, events);
      LatestClaim(s.log, WorkerOf(s, w).job) == Some(ClaimRecord(WorkerOf(s, w).job, w, WorkerOf(s, w).attempt))
  {
    RunsKeepInv(events);
    var s := Run(EMPTY, events);
    assert HistoryInv(s.rows, s.log, WorkerOf(s, w).job);
  }

  ghost predicate IsLastOf(log: seq<ClaimRecord>, job: Uuid, i: int) {
    0 <= i < |log| && log[i].job == job && forall k :: i < k < |log| ==> log[k].job != job
  }

  // The latest claim is the last record of its job.
  lemma {:induction false} LatestClaimIsLast(log: seq<ClaimRecord>, job: Uuid, r: ClaimRecord)
    requires LatestClaim(log, job) == Some(r)
    ensures exists i :: IsLastOf(log, job, i) && log[i] == r
  {
    var last := |log| - 1;
    if log[last].job == job {
      assert IsLastOf(log, job, last);
    } else {
      LatestClaimIsLast(log[..last], job, r);
      var i :| IsLastOf(log[..last], job, i) && log[..last][i] == r;
      forall k | i < k < |log| ensures log[k].job != job {
        assert k < last ==> log[..last][k] == log[k];
      }
      assert IsLastOf(log, job, i);
    }
  }

  // Claims of a job never exceed its allowance, and a dead job has used all of it.
  lemma ClaimsAreBounded(events: seq<Event>, id: Uuid)
    ensures var s := Run(EMPTY, events);
      id in s.rows ==>
        && ClaimCount(s.log, id) == s.rows[id].attempts <= s.rows[id].maxAttempts
        && (s.rows[id].status == Dead ==> ClaimCount(s.log, id) == s.rows[id].maxAttempts)
  {
    RunsKeepInv(events);
  }

  // Succeeded and dead are final, jobs never disappear, and the allowance never changes.
  lemma TerminalAbsorbs(s: System, e: Event, id: Uuid)
    requires Inv(s) && id in s.rows
    ensures id in Apply(s, e).rows && Apply(s, e).rows[id].maxAttempts == s.rows[id].maxAttempts
    ensures Terminal(s.rows[id]) ==> Apply(s, e).rows[id] == s.rows[id]
  {
  }

  // A job dies in exactly two ways: its worker reports the failure of the last attempt in time, or somebody else's
  // claim buries it after its last lease ran out.
  lemma HowJobsDie(s: System, e: Event, id: nat)
    requires Inv(s) && id in s.rows && s.rows[id].status != Dead
    ensures id in Apply(s, e).rows
    ensures Apply(s, e).rows[id].status == Dead <==>
      || (e.Fail? && WorkerOf(s, e.worker).Working? && WorkerOf(s, e.worker).job == id &&
          Holds(s.rows, id, e.worker, e.now) && s.rows[id].attempts == s.rows[id].maxAttempts)
      || (e.Claim? && !WorkerOf(s, e.worker).Working? && Exhausted(s.rows[id], e.now))
  {
    assert RowInv(s.rows[id]);
  }

  // ---- Progress ----

  // Two per attempt left, one more while it is lent out, nothing once it is over.
  function Potential(job: Job): int {
    if Terminal(job) then 0 else 2 * (job.maxAttempts - job.attempts) + if job.status == Running then 1 else 0
  }

  // The row made a step of its life cycle (heartbeats and rewrites of other columns do not count).
  predicate Stepped(a: Job, b: Job) {
    a.status != b.status || a.attempts != b.attempts
  }

  ghost function StepsBetween(a: Table, b: Table): set<Uuid> {
    set id | id in a && id in b && Stepped(a[id], b[id])
  }

  ghost function Sum(ids: set<Uuid>, values: map<Uuid, int>): int
    requires ids <= values.Keys
  {
    if ids == {} then 0 else
      var id :| id in ids;
      values[id] + Sum(ids - {id}, values)
  }

  // Where each value drops by at least one per member of `steps`, so does the sum.
  lemma {:induction false} SumDrops(ids: set<Uuid>, a: map<Uuid, int>, b: map<Uuid, int>, steps: set<Uuid>)
    requires ids <= a.Keys && ids <= b.Keys
    requires forall id :: id in ids ==> b[id] + (if id in steps then 1 else 0) <= a[id]
    ensures Sum(ids, b) + |steps * ids| <= Sum(ids, a)
  {
    if ids == {} {
      assert steps * ids == {};
    } else {
      var id :| id in ids && Sum(ids, a) == a[id] + Sum(ids - {id}, a) && Sum(ids, b) == b[id] + Sum(ids - {id}, b);
      SumDrops(ids - {id}, a, b, steps);
      var rest := steps * (ids - {id});
      assert steps * ids == if id in steps then rest + {id} else rest;
    }
  }

  ghost function Total(rows: Table): int {
    Sum(rows.Keys, map id | id in rows :: Potential(rows[id]))
  }

  ghost function Allowance(rows: Table): int {
    Sum(rows.Keys, map id | id in rows :: 2 * rows[id].maxAttempts)
  }

  lemma {:induction false} SumOfZeros(ids: set<Uuid>, zeros: map<Uuid, int>)
    requires ids <= zeros.Keys && forall id :: id in ids ==> zeros[id] == 0
    ensures Sum(ids, zeros) == 0
  {
    if ids != {} {
      var id :| id in ids && Sum(ids, zeros) == zeros[id] + Sum(ids - {id}, zeros);
      SumOfZeros(ids - {id}, zeros);
    }
  }

  lemma TotalWithinAllowance(rows: Table)
    requires forall id :: id in rows ==> RowInv(rows[id])
    ensures 0 <= Total(rows) <= Allowance(rows)
  {
    var zeros := map id | id in rows :: 0;
    SumDrops(rows.Keys, map id | id in rows :: Potential(rows[id]), zeros, {});
    SumOfZeros(rows.Keys, zeros);
    SumDrops(rows.Keys, map id | id in rows :: 2 * rows[id].maxAttempts, map id | id in rows :: Potential(rows[id]), {});
  }

  ghost predicate UsesPotential(a: Job, b: Job) {
    Potential(b) + (if Stepped(a, b) then 1 else 0) <= Potential(a)
  }

  lemma ClaimUsesPotential(rows: Table, w: string, now: int, until: int, pick: Option<Uuid>, id: Uuid)
    requires id in rows && RowInv(rows[id])
    ensures UsesPotential(rows[id], ClaimRows(rows, w, now, until, pick)[id])
  {
  }

  lemma HolderUsesPotential(rows: Table, job: Uuid, w: string, now: int, other: int, message: string, id: Uuid)
    requires id in rows && RowInv(rows[id])
    ensures UsesPotential(rows[id], HeartbeatRows(rows, job, w, now, other)[id])
    ensures UsesPotential(rows[id], SucceedRows(rows, job, w, now)[id])
    ensures UsesPotential(rows[id], FailRows(rows, job, w, message, other, now)[id])
  {
  }

  lemma RowUsesPotential(s: System, e: Event, id: Uuid)
    requires Inv(s) && !e.Enqueue? && id in s.rows
    ensures id in Apply(s, e).rows
    ensures UsesPotential(s.rows[id], Apply(s, e).rows[id])
  {
    assert RowInv(s.rows[id]);
    match e
    case Claim(w, now, until, pick, _) => ClaimUsesPotential(s.rows, w, now, until, pick, id);
    case Heartbeat(w, now, until) =>
      if WorkerOf(s, w).Working? {
        HolderUsesPotential(s.rows, WorkerOf(s, w).job, w, now, until, "", id);
      }
    case Succeed(w, now) =>
      if WorkerOf(s, w).Working? {
        HolderUsesPotential(s.rows, WorkerOf(s, w).job, w, now, 0, "", id);
      }
    case Fail(w, message, availableAt, now) =>
      if WorkerOf(s, w).Working? {
        HolderUsesPotential(s.rows, WorkerOf(s, w).job, w, now, availableAt, message, id);
      }
    case LetGo(_) =>
  }

  lemma NoRowsAdded(s: System, e: Event)
    requires !e.Enqueue?
    ensures Apply(s, e).rows.Keys == s.rows.Keys
  {
  }

  lemma RowsUsePotential(rows: Table, next: Table)
    requires next.Keys == rows.Keys && forall id :: id in rows ==> UsesPotential(rows[id], next[id])
    ensures Total(next) + |StepsBetween(rows, next)| <= Total(rows)
  {
    var steps := StepsBetween(rows, next);
    SumDrops(rows.Keys, map id | id in rows :: Potential(rows[id]), map id | id in next :: Potential(next[id]), steps);
    assert steps * rows.Keys == steps;
  }

  // Every claim, acknowledgement, failure and burial uses up potential; nothing but an enqueue adds any.
  lemma StepUsesPotential(s: System, e: Event)
    requires Inv(s) && !e.Enqueue?
    ensures Total(Apply(s, e).rows) + |StepsBetween(s.rows, Apply(s, e).rows)| <= Total(s.rows)
  {
    var next := Apply(s, e).rows;
    forall id | id in s.rows
      ensures id in next && UsesPotential(s.rows[id], next[id])
    {
      RowUsesPotential(s, e, id);
    }
    NoRowsAdded(s, e);
    RowsUsePotential(s.rows, next);
  }

  // Life-cycle steps made by all jobs over a run.
  ghost function StepCount(s: System, events: seq<Event>): nat {
    if events == [] then 0
    else
      var before := events[..|events| - 1];
      StepCount(s, before) + |StepsBetween(Run(s, before).rows, Run(s, events).rows)|
  }

  lemma {:induction false} RunUsesPotential(s: System, events: seq<Event>)
    requires Inv(s) && forall e :: e in events ==> !e.Enqueue?
    ensures Inv(Run(s, events)) && Total(Run(s, events).rows) + StepCount(s, events) <= Total(s.rows)
  {
    if events != [] {
      var before, e := events[..|events| - 1], events[|events| - 1];
      assert e in events;
      RunUsesPotential(s, before);
      StepKeepsInv(Run(s, before), e);
      StepUsesPotential(Run(s, before), e);
    }
  }

  // Without new jobs, all jobs together make at most 2 * max_attempts steps each: no run churns forever.
  lemma StepsAreBounded(s: System, events: seq<Event>)
    requires Inv(s) && forall e :: e in events ==> !e.Enqueue?
    ensures StepCount(s, events) <= Allowance(s.rows)
  {
    RunUsesPotential(s, events);
    TotalWithinAllowance(s.rows);
    TotalWithinAllowance(Run(s, events).rows);
  }
}
