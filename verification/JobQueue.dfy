/** The lease-based job table: every statement as a guarded update of its rows. */
module JobQueue {
  import opened Graphs
  import opened Texts

  datatype Status = Queued | Running | Failed | Succeeded | Dead

  datatype Job = Job(kind: string, deduplicationKey: Option<string>, payload: string, status: Status, attempts: int,
                     maxAttempts: int, availableAt: int, createdAt: int, lease: Option<int>, lockedBy: Option<string>,
                     lastError: string, completedAt: Option<int>)

  type Table = map<Uuid, Job>

  // `payload` stands for the canonical form of the JSON document.
  datatype Request = Request(id: Uuid, kind: string, deduplicationKey: string, payload: string, maxAttempts: int,
                             availableAt: int, createdAt: int)

  datatype EnqueueResult = Created | Existing(id: Uuid) | DeduplicationConflict | InvalidRequest | IdTaken

  const EXPIRED_MESSAGE := "worker lease expired after final attempt"

  predicate ValidRequest(r: Request) {
    && r.id != 0 && 0 < |r.kind| <= 100 && |r.deduplicationKey| <= 255
    && 1 <= r.maxAttempts <= 100
  }

  function KeyOf(r: Request): Option<string> {
    if r.deduplicationKey == "" then None else Some(r.deduplicationKey)
  }

  function NewJob(r: Request): Job {
    Job(r.kind, KeyOf(r), r.payload, Queued, 0, r.maxAttempts, r.availableAt, r.createdAt, None, None, "", None)
  }

  predicate SameKey(job: Job, r: Request) {
    job.deduplicationKey.Some? && KeyOf(r) == job.deduplicationKey && job.kind == r.kind
  }

  predicate Terminal(job: Job) {
    job.status == Succeeded || job.status == Dead
  }

  // A running job whose lease is over at `now`.
  predicate LeaseOver(job: Job, now: int) {
    job.status == Running && job.lease.Some? && job.lease.value <= now
  }

  predicate Exhausted(job: Job, now: int) {
    LeaseOver(job, now) && job.attempts >= job.maxAttempts
  }

  predicate Claimable(job: Job, now: int) {
    job.attempts < job.maxAttempts &&
    (((job.status == Queued || job.status == Failed) && job.availableAt <= now) || LeaseOver(job, now))
  }

  // The order of the claim query: available_at, created_at, id.
  predicate ClaimedBefore(rows: Table, a: Uuid, b: Uuid)
    requires a in rows && b in rows
  {
    || rows[a].availableAt < rows[b].availableAt
    || (rows[a].availableAt == rows[b].availableAt && rows[a].createdAt < rows[b].createdAt)
    || (rows[a].availableAt == rows[b].availableAt && rows[a].createdAt == rows[b].createdAt && a < b)
  }

  function Bury(job: Job, now: int): Job {
    job.(status := Dead, lease := None, lockedBy := None, completedAt := Some(now),
         lastError := if job.lastError == "" then EXPIRED_MESSAGE else job.lastError)
  }

  function Lend(job: Job, worker: string, until: int): Job {
    job.(status := Running, attempts := job.attempts + 1, lease := Some(until), lockedBy := Some(worker), completedAt := None)
  }

  // The claim statement: exhausted rows are buried, the picked row is lent out; both parts see the same snapshot.
  function ClaimRows(rows: Table, worker: string, now: int, until: int, pick: Option<Uuid>): Table {
    map id | id in rows ::
      if Exhausted(rows[id], now) then Bury(rows[id], now)
      else if pick == Some(id) && Claimable(rows[id], now) then Lend(rows[id], worker, until)
      else rows[id]
  }

  // The row guard of heartbeat and acknowledgements.
  predicate Holds(rows: Table, id: Uuid, worker: string, now: int) {
    id in rows && rows[id].status == Running && rows[id].lockedBy == Some(worker) && rows[id].lease.Some? && rows[id].lease.value > now
  }

  function HeartbeatRows(rows: Table, id: Uuid, worker: string, now: int, until: int): Table {
    if Holds(rows, id, worker, now) then rows[id := rows[id].(lease := Some(until))] else rows
  }

  function SucceedRows(rows: Table, id: Uuid, worker: string, now: int): Table {
    if Holds(rows, id, worker, now)
    then rows[id := rows[id].(status := Succeeded, lease := None, lockedBy := None, lastError := "", completedAt := Some(now))]
    else rows
  }

  function FailRows(rows: Table, id: Uuid, worker: string, message: string, availableAt: int, now: int): Table {
    if Holds(rows, id, worker, now) then
      var job := rows[id];
      var last := job.attempts >= job.maxAttempts;
      rows[id := job.(status := if last then Dead else Failed, availableAt := if last then job.availableAt else availableAt,
                      lease := None, lockedBy := None, lastError := message,
                      completedAt := if last then Some(now) else None)]
    else rows
  }

  function EnqueueRows(rows: Table, r: Request): Table {
    if ValidRequest(r) && !(exists id :: id in rows && SameKey(rows[id], r)) && r.id !in rows
    then rows[r.id := NewJob(r)]
    else rows
  }

  // Nobody claimable and unlocked comes before the picked row; nothing is picked only if nothing is claimable.
  ghost predicate FirstClaimable(rows: Table, now: int, skipped: set<Uuid>, pick: Option<Uuid>) {
    match pick
    case None => forall id :: id in rows && id !in skipped ==> !Claimable(rows[id], now)
    case Some(p) =>
      && p in rows && p !in skipped && Claimable(rows[p], now)
      && forall id :: id in rows && id !in skipped && Claimable(rows[id], now) && id != p ==> ClaimedBefore(rows, p, id)
  }

  // ---- The retry delay ----

  function Power2(n: nat): nat {
    if n == 0 then 1 else 2 * Power2(n - 1)
  }

  lemma {:induction false} DelayGrows(base: nat, early: nat, late: nat)
    requires 1 <= early <= late && base > 0
    ensures base * Power2(early - 1) <= base * Power2(late - 1)
    ensures early < late ==> 2 * (base * Power2(early - 1)) <= base * Power2(late - 1)
    decreases late
  {
    if early < late {
      DelayGrows(base, early, late - 1);
      assert base * Power2(late - 1) == 2 * (base * Power2(late - 2));
    }
  }

  // Exponential backoff, capped, and never computed beyond the cap: no intermediate value exceeds it.
  method RetryDelay(base: nat, maximum: nat, attempt: int) returns (delay: nat)
    requires 0 < base <= maximum
    ensures attempt >= 1 ==> delay == if base * Power2(attempt - 1) <= maximum then base * Power2(attempt - 1) else maximum
    ensures attempt < 1 ==> delay == base
    ensures delay <= maximum
  {
    delay := base;
    var current := 1;
    while current < attempt && delay < maximum
      invariant current >= 1 && delay <= maximum
      invariant attempt >= 1 ==> current <= attempt
      invariant attempt < 1 ==> current == 1
      invariant delay == base * Power2(current - 1)
      decreases attempt - current
    {
      if delay > maximum / 2 {
        DelayGrows(base, current, attempt);
        return maximum;
      }
      delay := delay * 2;
      current := current + 1;
    }
    if attempt >= 1 {
      DelayGrows(base, current, attempt);
    }
    if delay > maximum {
      return maximum;
    }
  }
}
