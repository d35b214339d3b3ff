/** The job repository: every method with what its statement means for the claims made so far. */
module JobRepository {
  import opened Graphs
  import opened Texts
  import opened JobQueue
  import Q = QueueProtocol

  // Everything an update may not touch.
  predicate SameJob(a: Job, b: Job) {
    && a.kind == b.kind && a.deduplicationKey == b.deduplicationKey && a.payload == b.payload
    && a.attempts == b.attempts && a.maxAttempts == b.maxAttempts && a.createdAt == b.createdAt
  }

  // Only this row may differ.
  ghost predicate OnlyChanges(before: Table, after: Table, id: Uuid) {
    after.Keys == before.Keys && forall other :: other in after && other != id ==> after[other] == before[other]
  }

  // The worker made the latest claim of the job: nobody has claimed the job after it.
  ghost predicate LatestClaimant(log: seq<Q.ClaimRecord>, id: Uuid, worker: string) {
    Q.LatestClaim(log, id).Some? && Q.LatestClaim(log, id).value.worker == worker
  }

  lemma {:induction false} HolderIsLatestClaimant(s: Q.System, id: Uuid, worker: string, now: int)
    requires Q.Inv(s) && Holds(s.rows, id, worker, now)
    ensures Q.LatestClaim(s.log, id) == Some(Q.ClaimRecord(id, worker, s.rows[id].attempts))
    ensures LatestClaimant(s.log, id, worker)
  {
    assert Q.HistoryInv(s.rows, s.log, id);
  }

  // The candidate subquery: the first claimable row not locked by a concurrent transaction.
  method Candidate(rows: Table, now: int, skipped: set<Uuid>) returns (pick: Option<Uuid>)
    ensures FirstClaimable(rows, now, skipped, pick)
  {
    pick := None;
    var rest := rows.Keys;
    while rest != {}
      invariant rest <= rows.Keys
      invariant pick.Some? ==> pick.value in rows && pick.value !in skipped && Claimable(rows[pick.value], now)
      invariant forall id :: id in rows && id !in rest && id !in skipped && Claimable(rows[id], now) && pick != Some(id) ==>
        pick.Some? && ClaimedBefore(rows, pick.value, id)
      decreases rest
    {
      var id :| id in rest;
      rest := rest - {id};
      if id !in skipped && Claimable(rows[id], now) && (pick == None || ClaimedBefore(rows, id, pick.value)) {
        pick := Some(id);
      }
    }
  }

  // The log with one more effective claim.
  ghost function Claimed(rows: Table, log: seq<Q.ClaimRecord>, worker: string, pick: Option<Uuid>): seq<Q.ClaimRecord>
    requires pick.Some? ==> pick.value in rows
  {
    if pick.Some? then log + [Q.ClaimRecord(pick.value, worker, rows[pick.value].attempts + 1)] else log
  }

  lemma ClaimKeepsInv(rows: Table, log: seq<Q.ClaimRecord>, worker: string, now: int, until: int, pick: Option<Uuid>)
    requires Q.Inv(Q.System(rows, map[], log))
    requires pick.Some? ==> pick.value in rows && Claimable(rows[pick.value], now)
    ensures Q.Inv(Q.System(ClaimRows(rows, worker, now, until, pick), map[], Claimed(rows, log, worker, pick)))
  {
    Q.ClaimedKeepsInv(Q.System(rows, map[], log), worker, now, until, pick);
    assert Q.Claimed(Q.System(rows, map[], log), worker, now, until, pick).log == Claimed(rows, log, worker, pick);
  }

  // What a claim does to the table and to the log.
  ghost predicate ClaimsFirst(before: Table, log: seq<Q.ClaimRecord>, worker: string, now: int, until: int,
                              skipped: set<Uuid>, pick: Option<Uuid>, after: Table, grown: seq<Q.ClaimRecord>)
  {
    && FirstClaimable(before, now, skipped, pick) && after.Keys == before.Keys
    && (match pick
        case None => grown == log
        case Some(id) =>
          && after[id] == Lend(before[id], worker, until)
          && grown == log + [Q.ClaimRecord(id, worker, after[id].attempts)])
    && (forall id :: id in after && pick != Some(id) ==>
          after[id] == if Exhausted(before[id], now) then Bury(before[id], now) else before[id])
  }

  lemma ClaimRowsClaimFirst(rows: Table, log: seq<Q.ClaimRecord>, worker: string, now: int, until: int, skipped: set<Uuid>,
                            pick: Option<Uuid>)
    requires FirstClaimable(rows, now, skipped, pick)
    ensures ClaimsFirst(rows, log, worker, now, until, skipped, pick, ClaimRows(rows, worker, now, until, pick),
                        Claimed(rows, log, worker, pick))
  {
  }

  // Both updates of the statement see the rows as they were before it.
  method UpdateClaimed(rows: Table, worker: string, now: int, until: int, pick: Option<Uuid>) returns (next: Table)
    requires pick.Some? ==> pick.value in rows && Claimable(rows[pick.value], now)
    ensures next == ClaimRows(rows, worker, now, until, pick)
  {
    var claimed := if pick.Some? then rows[pick.value := Lend(rows[pick.value], worker, until)] else rows;
    next := map id | id in rows :: if Exhausted(rows[id], now) then Bury(rows[id], now) else claimed[id];
  }

  method ClaimStatement(rows: Table, ghost log: seq<Q.ClaimRecord>, worker: string, now: int, until: int, skipped: set<Uuid>)
      returns (pick: Option<Uuid>, next: Table, ghost grown: seq<Q.ClaimRecord>)
    requires Q.Inv(Q.System(rows, map[], log))
    ensures ClaimsFirst(rows, log, worker, now, until, skipped, pick, next, grown)
    ensures Q.Inv(Q.System(next, map[], grown))
  {
    pick := Candidate(rows, now, skipped);
    ClaimKeepsInv(rows, log, worker, now, until, pick);
    ClaimRowsClaimFirst(rows, log, worker, now, until, skipped, pick);
    grown := Claimed(rows, log, worker, pick);
    next := UpdateClaimed(rows, worker, now, until, pick);
  }

  class Repository {
    var rows: Table
    ghost var log: seq<Q.ClaimRecord>

    // The table as the protocol sees it, with every claim made so far.
    ghost function State(): Q.System
      reads this
    {
      Q.System(rows, map[], log)
    }

    ghost predicate Valid()
      reads this
    {
      Q.Inv(State())
    }

    constructor ()
      ensures Valid() && rows == map[] && log == []
    {
      rows, log := map[], [];
    }

    // A job is created unless its kind and key name one already, which must then be the same job.
    method EnqueueWith(r: Request) returns (result: EnqueueResult)
      requires Valid()
      modifies this
      ensures Valid() && log == old(log)
      ensures result == InvalidRequest <==> !ValidRequest(r)
      ensures result == Created ==> r.id !in old(rows) && rows == old(rows)[r.id := NewJob(r)]
      ensures result != Created ==> rows == old(rows)
      ensures result == Created ==> forall id :: id in old(rows) ==> !SameKey(old(rows)[id], r)
      ensures result.Existing? ==>
        && result.id in rows && SameKey(rows[result.id], r)
        && rows[result.id].payload == r.payload && rows[result.id].maxAttempts == r.maxAttempts
      ensures result == DeduplicationConflict ==> exists id ::
        && id in rows && SameKey(rows[id], r)
        && (rows[id].payload != r.payload || rows[id].maxAttempts != r.maxAttempts)
      ensures result == IdTaken ==> r.id in rows && forall id :: id in rows ==> !SameKey(rows[id], r)
    {
      Q.EnqueueKeepsInv(State(), r);
      if !ValidRequest(r) {
        return InvalidRequest;
      }
      if id :| id in rows && SameKey(rows[id], r) {
        if rows[id].payload != r.payload || rows[id].maxAttempts != r.maxAttempts {
          return DeduplicationConflict;
        }
        return Existing(id);
      }
      if r.id in rows {
        return IdTaken;
      }
      rows := rows[r.id := NewJob(r)];
      result := Created;
    }

    // Exhausted jobs are buried, and the first claimable one is lent to the worker, who becomes its latest claimant
    // with one attempt more than before; every other job stays as it is.
    method Claim(worker: string, leaseDuration: int, now: int, skipped: set<Uuid>) returns (valid: bool, job: Option<Uuid>)
      requires Valid()
      modifies this
      ensures Valid()
      ensures valid <==> 0 < |worker| <= 255 && leaseDuration > 0
      ensures !valid ==> rows == old(rows) && log == old(log) && job == None
      ensures valid ==> ClaimsFirst(old(rows), old(log), worker, now, now + leaseDuration, skipped, job, rows, log)
    {
      if |worker| == 0 || |worker| > 255 || leaseDuration <= 0 {
        return false, None;
      }
      job, rows, log := ClaimStatement(rows, log, worker, now, now + leaseDuration, skipped);
      valid := true;
    }

    // Only the latest claimant can extend its lease, and only while the lease lasts.
    method Heartbeat(id: Uuid, worker: string, leaseDuration: int, now: int) returns (kept: bool)
      requires Valid()
      modifies this`rows
      ensures Valid() && OnlyChanges(old(rows), rows, id)
      ensures rows == if kept then HeartbeatRows(old(rows), id, worker, now, now + leaseDuration) else old(rows)
      ensures kept <==> id != 0 && |worker| > 0 && leaseDuration > 0 && Holds(old(rows), id, worker, now)
      ensures kept ==> LatestClaimant(log, id, worker)
      ensures kept ==>
        && Holds(rows, id, worker, now) && rows[id].lease == Some(now + leaseDuration) && SameJob(rows[id], old(rows)[id])
        && rows[id].availableAt == old(rows)[id].availableAt && rows[id].lastError == old(rows)[id].lastError
    {
      kept := id != 0 && |worker| > 0 && leaseDuration > 0 && Holds(rows, id, worker, now);
      if kept {
        HolderIsLatestClaimant(State(), id, worker, now);
        Q.UpdateKeepsInv(State(), id, rows[id].(lease := Some(now + leaseDuration)));
        rows := rows[id := rows[id].(lease := Some(now + leaseDuration))];
      }
    }

    // Only the latest claimant ends the job, before its lease is over; nothing happens to the job after that.
    method Succeed(id: Uuid, worker: string, now: int) returns (acknowledged: bool)
      requires Valid()
      modifies this`rows
      ensures Valid() && OnlyChanges(old(rows), rows, id)
      ensures rows == if acknowledged then SucceedRows(old(rows), id, worker, now) else old(rows)
      ensures acknowledged <==> id != 0 && |worker| > 0 && Holds(old(rows), id, worker, now)
      ensures acknowledged ==> LatestClaimant(log, id, worker)
      ensures acknowledged ==>
        && Terminal(rows[id]) && rows[id].status == Succeeded && rows[id].lastError == "" && rows[id].completedAt == Some(now)
        && SameJob(rows[id], old(rows)[id]) && rows[id].availableAt == old(rows)[id].availableAt
      ensures acknowledged ==> forall w, t :: !Holds(rows, id, w, t)
    {
      acknowledged := id != 0 && |worker| > 0 && Holds(rows, id, worker, now);
      if acknowledged {
        HolderIsLatestClaimant(State(), id, worker, now);
        var job := rows[id].(status := Succeeded, lease := None, lockedBy := None, lastError := "", completedAt := Some(now));
        assert Q.RowInv(rows[id]);
        Q.UpdateKeepsInv(State(), id, job);
        rows := rows[id := job];
      }
    }

    // Only the latest claimant reports a failure, before its lease is over. The job dies exactly if it has been claimed
    // as often as it may be; otherwise it waits to be claimed again.
    method Fail(id: Uuid, worker: string, message: string, availableAt: int, now: int)
        returns (recorded: bool, dead: bool)
      requires Valid()
      modifies this`rows
      ensures Valid() && OnlyChanges(old(rows), rows, id)
      ensures rows == if recorded then FailRows(old(rows), id, worker, message, availableAt, now) else old(rows)
      ensures recorded <==> id != 0 && |worker| > 0 && Holds(old(rows), id, worker, now)
      ensures recorded ==> LatestClaimant(log, id, worker)
      ensures recorded ==> SameJob(rows[id], old(rows)[id]) && rows[id].lastError == message
      ensures recorded ==> forall w, t :: !Holds(rows, id, w, t)
      ensures dead <==> recorded && Q.ClaimCount(log, id) == rows[id].maxAttempts
      ensures dead ==> rows[id].status == Dead && rows[id].completedAt == Some(now) && rows[id].availableAt == old(rows)[id].availableAt
      ensures recorded && !dead ==> forall t :: Claimable(rows[id], t) <==> availableAt <= t
    {
      recorded := id != 0 && |worker| > 0 && Holds(rows, id, worker, now);
      dead := false;
      if recorded {
        HolderIsLatestClaimant(State(), id, worker, now);
        var job := rows[id];
        assert Q.RowInv(job) && Q.HistoryInv(rows, log, id);
        dead := job.attempts >= job.maxAttempts;
        if dead {
          job := job.(status := Dead, completedAt := Some(now));
        } else {
          job := job.(status := Failed, availableAt := availableAt, completedAt := None);
        }
        job := job.(lease := None, lockedBy := None, lastError := message);
        Q.UpdateKeepsInv(State(), id, job);
        rows := rows[id := job];
      }
    }
  }
}
