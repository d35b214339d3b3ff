/** The export jobs as programs: every statement they execute is a step of the export protocol. */
module ExportWorkers {
  import opened Graphs
  import opened ExportRows
  import opened ExportProtocol
  import opened Faults

  // An error that a retry cannot help, or any other.
  datatype Rendered = Result(body: Body) | Unrenderable | Failing

  // How the calls of one run go, and what everybody else does before the n-th of them.
  datatype Circumstances = Circumstances(acquire: Fault, put: Fault, update: Fault, check: Fault, deletion: Fault, mark: Fault,
                                         others: nat -> seq<Event>)

  predicate By(e: Event, g: string) {
    match e
    case AcquireExport(h, _, _) => h == g
    case PutResult(h, _, _) => h == g
    case Complete(h, _, _) => h == g
    case Recheck(h) => h == g
    case DeleteConflicting(h) => h == g
    case MarkFailed(h) => h == g
    case Crash(h) => h == g
    case _ => false
  }

  ghost predicate ByOthers(c: Circumstances, g: string) {
    forall n, e :: e in c.others(n) ==> !By(e, g)
  }

  ghost predicate Alone(c: Circumstances) {
    forall n :: c.others(n) == []
  }

  // The run records how the export ended, by its completion or as a failure, even if it reports an error itself.
  predicate Concludes(rendered: Rendered, c: Circumstances) {
    && c.acquire == Works
    && (c.mark != Fails || (rendered.Result? && c.put == Works && c.update != Fails))
  }

  // An export that nobody can complete any more.
  ghost predicate Settled(s: System, id: Uuid) {
    id in s.rows && !Open(s.rows[id])
  }

  lemma OthersLeaveGenerator(sha: Body -> string, s: System, e: Event, g: string)
    requires !By(e, g)
    ensures GeneratorOf(Apply(sha, s, e), g) == GeneratorOf(s, g)
  {
  }

  lemma StepKeepsSettled(sha: Body -> string, s: System, e: Event, id: Uuid)
    requires Inv(sha, s) && id in s.rows
    ensures id in Apply(sha, s, e).rows
    ensures Settled(s, id) ==> Settled(Apply(sha, s, e), id)
  {
    StatesMoveForward(sha, s, e, id);
  }

  class Runner {
    var s: System

    constructor (s: System)
      ensures this.s == s
    {
      this.s := s;
    }

    method Step(sha: Body -> string, e: Event, ghost id: Uuid)
      requires Inv(sha, s)
      modifies this
      ensures s == Apply(sha, old(s), e) && Inv(sha, s)
      ensures id in old(s).rows ==> id in s.rows
      ensures Settled(old(s), id) ==> Settled(s, id)
    {
      StepKeepsInv(sha, s, e);
      if id in s.rows {
        StepKeepsSettled(sha, s, e, id);
      }
      s := Apply(sha, s, e);
    }

    // Anything the rest of the system does.
    method Others(sha: Body -> string, events: seq<Event>, g: string, id: Uuid)
      requires Inv(sha, s) && id in s.rows && forall e :: e in events ==> !By(e, g)
      modifies this
      ensures Inv(sha, s) && id in s.rows && GeneratorOf(s, g) == GeneratorOf(old(s), g)
      ensures Settled(old(s), id) ==> Settled(s, id)
      ensures events == [] ==> s == old(s)
    {
      for i := 0 to |events|
        invariant Inv(sha, s) && id in s.rows && GeneratorOf(s, g) == GeneratorOf(old(s), g)
        invariant Settled(old(s), id) ==> Settled(s, id)
        invariant i == 0 ==> s == old(s)
      {
        OthersLeaveGenerator(sha, s, events[i], g);
        Step(sha, events[i], id);
      }
    }

    // Marks the export as failed; a completed export is a conflict. `ok` tells whether the caller sees success.
    method TryMarkFailed(sha: Body -> string, g: string, id: Uuid, mark: Fault) returns (ok: bool)
      requires Inv(sha, s) && id in s.rows
      requires GeneratorOf(s, g) in {Rendering(id), Giving(id)} || GeneratorOf(s, g).Uploaded? || GeneratorOf(s, g).Unmatched?
      requires GeneratorOf(s, g).exportId == id
      modifies this
      ensures Inv(sha, s) && id in s.rows
      ensures mark != Fails || Settled(old(s), id) ==> Settled(s, id)
      ensures mark == Fails ==> s == old(s)
      ensures ok <==> mark == Works && old(s).rows[id].status != Completed
    {
      ok := mark == Works && s.rows[id].status != Completed;
      if mark != Fails {
        assert GeneratorInv(sha, s, GeneratorOf(s, g));
        Step(sha, MarkFailed(g), id);
      }
    }

    // An error is reported; on the job's last attempt the export is given up first.
    method RetryOrFail(sha: Body -> string, g: string, id: Uuid, lastAttempt: bool, mark: Fault)
      requires Inv(sha, s) && id in s.rows
      requires GeneratorOf(s, g) in {Rendering(id), Giving(id)} || GeneratorOf(s, g).Uploaded? || GeneratorOf(s, g).Unmatched?
      requires GeneratorOf(s, g).exportId == id
      modifies this
      ensures Inv(sha, s) && id in s.rows
      ensures (lastAttempt && mark != Fails) || Settled(old(s), id) ==> Settled(s, id)
      ensures !lastAttempt || mark == Fails ==> s == old(s)
    {
      if lastAttempt {
        var marked := TryMarkFailed(sha, g, id, mark);
      }
    }

    // The update matched no row: the same result may be recorded already, or another state.
    method Resolve(sha: Body -> string, g: string, id: Uuid, lastAttempt: bool, c: Circumstances) returns (ok: bool)
      requires Inv(sha, s) && id in s.rows && ByOthers(c, g)
      requires GeneratorOf(s, g).Unmatched? && GeneratorOf(s, g).exportId == id
      modifies this
      ensures Inv(sha, s) && id in s.rows && Settled(s, id)
    {
      assert GeneratorInv(sha, s, GeneratorOf(s, g));
      Others(sha, c.others(2), g, id);
      if c.check != Works {
        RetryOrFail(sha, g, id, lastAttempt, c.mark);
        return false;
      }
      Step(sha, Recheck(g), id);
      if GeneratorOf(s, g) == Idle {
        return true;
      }
      Others(sha, c.others(3), g, id);
      if c.deletion != Fails {
        Step(sha, DeleteConflicting(g), id);
      }
      ok := c.deletion == Works;
    }

    // After an upload: record the result, and take the object back if another state was recorded first.
    method Finish(sha: Body -> string, g: string, id: Uuid, expiresAt: int, lastAttempt: bool, c: Circumstances)
        returns (ok: bool)
      requires Inv(sha, s) && id in s.rows && ByOthers(c, g)
      requires GeneratorOf(s, g).Uploaded? && GeneratorOf(s, g).exportId == id
      modifies this
      ensures Inv(sha, s) && id in s.rows
      ensures ok ==> Settled(s, id)
      ensures !ok && lastAttempt && (c.mark != Fails || c.update != Fails) ==> Settled(s, id)
      ensures c.update == Fails && c.mark == Fails ==> !ok && s == old(s)
    {
      if c.update == Fails {
        RetryOrFail(sha, g, id, lastAttempt, c.mark);
        return false;
      }
      var affected := s.rows[id].status == Running;
      Step(sha, Complete(g, expiresAt, c.update == Works), id);
      if c.update == LosesAnswer {
        RetryOrFail(sha, g, id, lastAttempt, c.mark);
        return false;
      }
      if affected {
        return true;
      }
      ok := Resolve(sha, g, id, lastAttempt, c);
    }

    // One run of a generation job. When it reports success, the export is settled: completed with its object in the
    // store, failed or expired, whatever everybody else did meanwhile. When it reports an error on the last attempt,
    // the export is settled if the run could conclude; if nobody else interfered, only then or if it was settled before.
    // An acquisition that fails is reported at once, and no failure is recorded for it.
    method Handle(sha: Body -> string, g: string, id: Uuid, rendered: Rendered, expiresAt: int, lastAttempt: bool,
                  c: Circumstances) returns (ok: bool)
      requires Inv(sha, s) && GeneratorOf(s, g) == Idle && ByOthers(c, g)
      modifies this
      ensures Inv(sha, s)
      ensures ok && id in old(s).rows ==> Settled(s, id)
      ensures !ok && id in old(s).rows && lastAttempt && Concludes(rendered, c) ==> Settled(s, id)
      ensures !ok && id in old(s).rows && lastAttempt && Alone(c) ==>
        (Settled(s, id) <==> Settled(old(s), id) || Concludes(rendered, c))
      ensures c.acquire == Fails ==> !ok && s == old(s)
      ensures c.acquire == LosesAnswer && id in old(s).rows ==> !ok && s.rows == Acquire(old(s).rows, id)
      ensures id !in old(s).rows ==> s == old(s) && (ok <==> c.acquire != Fails)
    {
      if c.acquire == Fails {
        return false;
      }
      if id !in s.rows {
        return true;
      }
      Step(sha, AcquireExport(g, id, c.acquire == Works), id);
      if c.acquire == LosesAnswer {
        return false;
      }
      if s.rows[id].status != Running {
        return true;
      }
      Others(sha, c.others(0), g, id);
      if rendered == Unrenderable {
        ok := TryMarkFailed(sha, g, id, c.mark);
        return;
      }
      if rendered == Failing || c.put == Fails {
        RetryOrFail(sha, g, id, lastAttempt, c.mark);
        return false;
      }
      Step(sha, PutResult(g, rendered.body, c.put == Works), id);
      if c.put == LosesAnswer {
        RetryOrFail(sha, g, id, lastAttempt, c.mark);
        return false;
      }
      Others(sha, c.others(1), g, id);
      ok := Finish(sha, g, id, expiresAt, lastAttempt, c);
    }
  }

  // ---- Cleaning up ----

  ghost predicate OnlyCandidatesChange(before: Rows, after: Rows, candidates: seq<Candidate>) {
    && after.Keys == before.Keys
    && (forall id :: id in after && id !in Reserved(candidates) ==> after[id] == before[id])
    && (forall id :: id in after && id in Reserved(candidates) ==> after[id].status == Expired)
  }

  ghost predicate OnlyTheirObjectsGo(before: map<ObjectKey, Body>, after: map<ObjectKey, Body>, candidates: seq<Candidate>) {
    && (forall k :: k in after ==> k in before && after[k] == before[k])
    && (forall k :: k in before && k !in after ==> exists c :: c in candidates && c.resultKey == Key(k))
  }

  // Neither the store nor the row remembers the result.
  ghost predicate Forgotten(rows: Rows, store: map<ObjectKey, Body>, c: Candidate) {
    && (c.resultKey.Key? ==> c.resultKey.key !in store)
    && c.exportId in rows && rows[c.exportId].status == Expired && rows[c.exportId].resultKey == NoKey
  }

  function Removed(store: map<ObjectKey, Body>, c: Candidate): map<ObjectKey, Body> {
    if c.resultKey == NoKey then store else store - {c.resultKey.key}
  }

  lemma RemovalIsTheirs(before: map<ObjectKey, Body>, store: map<ObjectKey, Body>, candidates: seq<Candidate>, c: Candidate)
    requires OnlyTheirObjectsGo(before, store, candidates) && c in candidates
    ensures OnlyTheirObjectsGo(before, Removed(store, c), candidates)
  {
  }

  lemma ClearingIsTheirs(before: Rows, rows: Rows, candidates: seq<Candidate>, c: Candidate)
    requires OnlyCandidatesChange(before, rows, candidates) && c in candidates
    ensures OnlyCandidatesChange(before, Clear(rows, c.exportId), candidates)
  {
    assert c.exportId in Reserved(candidates);
  }

  lemma NowForgotten(rows: Rows, store: map<ObjectKey, Body>, c: Candidate)
    requires c.exportId in rows && rows[c.exportId].status == Expired
    ensures Forgotten(Clear(rows, c.exportId), Removed(store, c), c)
  {
  }

  lemma StillForgotten(rows: Rows, store: map<ObjectKey, Body>, c: Candidate, d: Candidate)
    requires Forgotten(rows, store, c)
    ensures Forgotten(Clear(rows, d.exportId), Removed(store, d), c)
  {
  }

  // The object is known to be gone.
  predicate Deleted(c: Candidate, deletion: Fault) {
    c.resultKey == NoKey || deletion == Works
  }

  class Cleanup {
    const repository: ExportRepository
    var store: map<ObjectKey, Body>

    constructor (repository: ExportRepository, store: map<ObjectKey, Body>)
      ensures this.repository == repository && this.store == store
    {
      this.repository := repository;
      this.store := store;
    }

    // The object goes first; the row forgets it only when it is gone.
    method DeleteCandidate(candidate: Candidate, deletion: Fault, clearing: Fault) returns (ok: bool)
      modifies this`store, repository
      ensures ok <==> Deleted(candidate, deletion) && clearing == Works
      ensures store == if deletion == Fails then old(store) else Removed(old(store), candidate)
      ensures repository.rows ==
        if Deleted(candidate, deletion) && clearing != Fails then Clear(old(repository.rows), candidate.exportId)
        else old(repository.rows)
      ensures repository.rows != old(repository.rows) && candidate.resultKey.Key? ==> candidate.resultKey.key !in store
    {
      if candidate.resultKey != NoKey {
        if deletion != Fails {
          store := store - {candidate.resultKey.key};
        }
        if deletion != Works {
          return false;
        }
      }
      if clearing != Fails {
        repository.ClearExpiredResult(candidate);
      }
      ok := clearing == Works;
    }

    // Candidates in turn, until a deletion or a clearing reports an error; `n` of them have been dealt with.
    method DeleteAll(candidates: seq<Candidate>, faults: nat -> (Fault, Fault)) returns (n: nat)
      requires forall c :: c in candidates ==> c.exportId in repository.rows && repository.rows[c.exportId].status == Expired
      modifies this`store, repository
      ensures n <= |candidates|
      ensures n == |candidates| <==>
        forall i :: 0 <= i < |candidates| ==> Deleted(candidates[i], faults(i).0) && faults(i).1 == Works
      ensures OnlyCandidatesChange(old(repository.rows), repository.rows, candidates)
      ensures OnlyTheirObjectsGo(old(store), store, candidates)
      ensures forall j :: 0 <= j < n ==> Forgotten(repository.rows, store, candidates[j])
    {
      n := 0;
      while n < |candidates|
        invariant n <= |candidates|
        invariant forall i :: 0 <= i < n ==> Deleted(candidates[i], faults(i).0) && faults(i).1 == Works
        invariant OnlyCandidatesChange(old(repository.rows), repository.rows, candidates)
        invariant OnlyTheirObjectsGo(old(store), store, candidates)
        invariant forall j :: 0 <= j < n ==> Forgotten(repository.rows, store, candidates[j])
      {
        var c := candidates[n];
        assert c in candidates && c.exportId in Reserved(candidates);
        RemovalIsTheirs(old(store), store, candidates, c);
        ClearingIsTheirs(old(repository.rows), repository.rows, candidates, c);
        NowForgotten(repository.rows, store, c);
        forall j | 0 <= j < n ensures Forgotten(Clear(repository.rows, c.exportId), Removed(store, c), candidates[j]) {
          StillForgotten(repository.rows, store, candidates[j], c);
        }
        var done := DeleteCandidate(candidates[n], faults(n).0, faults(n).1);
        if !done {
          return;
        }
        n := n + 1;
      }
    }

    // Every reserved result is deleted and forgotten, unless a call reports an error; objects of other exports and rows
    // that are not reserved stay as they are. `candidates` are the rows reserved, even if the answer was lost.
    method Handle(before: int, batchSize: int, locked: set<Uuid>, reserve: Fault, faults: nat -> (Fault, Fault))
        returns (ok: bool, candidates: seq<Candidate>)
      modifies this`store, repository
      ensures !(1 <= batchSize <= 1000) || reserve == Fails ==>
        !ok && candidates == [] && store == old(store) && repository.rows == old(repository.rows)
      ensures OncePerExport(candidates) && forall c :: c in candidates ==> Reservable(old(repository.rows), before, locked, c)
      ensures OnlyCandidatesChange(old(repository.rows), repository.rows, candidates)
      ensures OnlyTheirObjectsGo(old(store), store, candidates)
      ensures reserve != Works ==> !ok && store == old(store)
      ensures ok ==> forall j :: 0 <= j < |candidates| ==> Forgotten(repository.rows, store, candidates[j])
      ensures 1 <= batchSize <= 1000 && reserve == Works ==>
        (ok <==> forall i :: 0 <= i < |candidates| ==> Deleted(candidates[i], faults(i).0) && faults(i).1 == Works)
    {
      ok, candidates := false, [];
      if 1 <= batchSize <= 1000 && reserve != Fails {
        candidates := repository.ReserveCleanupCandidates(before, batchSize, locked);
        forall c | c in candidates ensures c.exportId in Reserved(candidates) {
        }
        if reserve == Works {
          var n := DeleteAll(candidates, faults);
          ok := n == |candidates|;
        }
      }
    }

    // The deletion job of one export: an export that is not expired is left alone.
    method HandleDeletion(id: Uuid, lookup: Fault, deletion: Fault, clearing: Fault) returns (ok: bool)
      modifies this`store, repository
      ensures lookup != Works ==> !ok && repository.rows == old(repository.rows) && store == old(store)
      ensures id in old(repository.rows) && old(repository.rows)[id].status == Expired && ok ==>
        Forgotten(repository.rows, store, Candidate(id, old(repository.rows)[id].resultKey))
      ensures id in old(repository.rows) && old(repository.rows)[id].status == Expired && lookup == Works ==>
        (ok <==> Deleted(Candidate(id, old(repository.rows)[id].resultKey), deletion) && clearing == Works)
      ensures lookup == Works && !(id in old(repository.rows) && old(repository.rows)[id].status == Expired) ==>
        ok && repository.rows == old(repository.rows) && store == old(store)
    {
      if lookup != Works {
        return false;
      }
      var found, candidate := repository.GetDeletionCandidate(id);
      if !found {
        return true;
      }
      NowForgotten(repository.rows, store, candidate);
      ok := DeleteCandidate(candidate, deletion, clearing);
    }
  }
}
