/** Export rows and result objects: the guarded statements of the export repository. */
module ExportRows {
  import opened Graphs

  datatype Status = Queued | Running | Completed | Failed | Expired

  type Body = string

  datatype ObjectKey = ObjectKey(tree: Uuid, exportId: Uuid, filename: string)

  // The empty key and checksum of a row without a result.
  datatype ResultKey = NoKey | Key(key: ObjectKey)

  datatype Export = Export(tree: Uuid, format: string, status: Status, resultKey: ResultKey, sizeBytes: nat,
                           checksum: string, expiresAt: int)

  type Rows = map<Uuid, Export>

  function Extension(format: string): string {
    if format == "zip_backup" then ".zip"
    else if format == "pdf" || format == "png" || format == "svg" then "." + format
    else if format == "gedcom" then ".ged"
    else if format == "gedzip" then ".gdz"
    else ".json"
  }

  function Stem(format: string): string {
    if format == "zip_backup" then "backup-"
    else if format == "pdf" || format == "png" || format == "svg" || format == "gedcom" || format == "gedzip" then "tree-"
    else "manifest-"
  }

  function ResultObjectKey(tree: Uuid, exportId: Uuid, format: string, checksum: string): ObjectKey {
    ObjectKey(tree, exportId, Stem(format) + checksum + Extension(format))
  }

  // Results of one export are stored under one key exactly when their checksums agree.
  lemma KeyDeterminesChecksum(tree: Uuid, exportId: Uuid, format: string, a: string, b: string)
    ensures ResultObjectKey(tree, exportId, format, a) == ResultObjectKey(tree, exportId, format, b) <==> a == b
  {
    var stem, ext := Stem(format), Extension(format);
    var x, y := stem + a + ext, stem + b + ext;
    if x == y {
      assert |a| == |b|;
      assert a == x[|stem|..|stem| + |a|];
      assert b == y[|stem|..|stem| + |b|];
    }
  }

  // An export that can still be completed.
  predicate Open(row: Export) {
    row.status == Queued || row.status == Running
  }

  // Only the four legal moves of a row's state; identity and format never change.
  ghost predicate RowMoves(a: Export, b: Export) {
    && a.tree == b.tree && a.format == b.format
    && match a.status
       case Queued => true
       case Running => b.status != Queued
       case Completed => (b.status == Completed && b == a) || b.status == Expired
       case Failed => b.status == Failed || b.status == Expired
       case Expired => b.status == Expired
  }

  // ---- Statements ----

  function Create(rows: Rows, id: Uuid, tree: Uuid, format: string): Rows {
    if id in rows then rows else rows[id := Export(tree, format, Queued, NoKey, 0, "", 0)]
  }

  function Acquire(rows: Rows, id: Uuid): Rows {
    if id in rows && rows[id].status == Queued then rows[id := rows[id].(status := Running)] else rows
  }

  function CompleteUpdate(rows: Rows, id: Uuid, key: ObjectKey, sizeBytes: nat, checksum: string, expiresAt: int): Rows {
    if id in rows && rows[id].status == Running
    then rows[id := rows[id].(status := Completed, resultKey := Key(key), sizeBytes := sizeBytes, checksum := checksum,
                              expiresAt := expiresAt)]
    else rows
  }

  // The second statement of a completion whose update matched no row: is the same result already recorded?
  predicate SameResult(rows: Rows, id: Uuid, key: ObjectKey, checksum: string) {
    id in rows && rows[id].status == Completed && rows[id].resultKey == Key(key) && rows[id].checksum == checksum
  }

  function Fail(rows: Rows, id: Uuid): Rows {
    if id in rows && (rows[id].status == Queued || rows[id].status == Running)
    then rows[id := rows[id].(status := Failed)] else rows
  }

  function Expire(rows: Rows, id: Uuid): Rows {
    if id in rows then rows[id := rows[id].(status := Expired)] else rows
  }

  predicate Stale(row: Export, before: int) {
    (row.status == Completed && row.expiresAt <= before) || (row.status == Expired && row.resultKey != NoKey)
  }

  function Clear(rows: Rows, id: Uuid): Rows {
    if id in rows && rows[id].status == Expired
    then rows[id := rows[id].(resultKey := NoKey, sizeBytes := 0, checksum := "")] else rows
  }

  datatype Candidate = Candidate(exportId: Uuid, resultKey: ResultKey)

  // The exports named by reserved candidates.
  function Reserved(candidates: seq<Candidate>): set<Uuid> {
    set c | c in candidates :: c.exportId
  }

  predicate OncePerExport(candidates: seq<Candidate>) {
    forall i, j :: 0 <= i < j < |candidates| ==> candidates[i].exportId != candidates[j].exportId
  }

  predicate Reservable(rows: Rows, before: int, locked: set<Uuid>, c: Candidate) {
    && c.exportId in rows && c.exportId !in locked && Stale(rows[c.exportId], before)
    && c.resultKey == rows[c.exportId].resultKey
  }

  function ExpireAll(rows: Rows, ids: set<Uuid>): Rows {
    map id | id in rows :: if id in ids then rows[id].(status := Expired) else rows[id]
  }

  lemma ReserveOne(candidates: seq<Candidate>, c: Candidate)
    requires OncePerExport(candidates) && c.exportId !in Reserved(candidates)
    ensures Reserved(candidates + [c]) == Reserved(candidates) + {c.exportId}
    ensures OncePerExport(candidates + [c])
  {
    var longer := candidates + [c];
    forall id | id in Reserved(candidates) + {c.exportId} ensures id in Reserved(longer) {
      if id in Reserved(candidates) {
        var d :| d in candidates && d.exportId == id;
        assert d in longer;
      } else {
        assert longer[|candidates|] == c;
      }
    }
    forall i | 0 <= i < |candidates| ensures longer[i].exportId != c.exportId {
      assert longer[i] in candidates;
    }
  }

  // Only this row may differ, and it moves legally.
  ghost predicate OnlyMoves(before: Rows, after: Rows, id: Uuid) {
    && after.Keys == before.Keys
    && (forall other :: other in after && other != id ==> after[other] == before[other])
    && (id in after ==> RowMoves(before[id], after[id]))
  }

  predicate SameResultColumns(a: Export, b: Export) {
    a.resultKey == b.resultKey && a.sizeBytes == b.sizeBytes && a.checksum == b.checksum && a.expiresAt == b.expiresAt
  }

  // The order of the cleanup query: expires_at, id. Stale rows have an expiry.
  predicate Older(rows: Rows, a: Uuid, b: Uuid)
    requires a in rows && b in rows
  {
    rows[a].expiresAt < rows[b].expiresAt || (rows[a].expiresAt == rows[b].expiresAt && a < b)
  }

  method Oldest(rows: Rows, ids: set<Uuid>) returns (oldest: Uuid)
    requires ids != {} && ids <= rows.Keys
    ensures oldest in ids && forall id :: id in ids && id != oldest ==> Older(rows, oldest, id)
  {
    oldest :| oldest in ids;
    var rest := ids - {oldest};
    while rest != {}
      invariant rest <= ids && oldest in ids && oldest !in rest
      invariant forall id :: id in ids && id !in rest && id != oldest ==> Older(rows, oldest, id)
      decreases rest
    {
      var id :| id in rest;
      rest := rest - {id};
      if Older(rows, id, oldest) {
        oldest := id;
      }
    }
  }

  // The jobs that go with an export, at most one of each kind.
  datatype ExportJob = Generate(exportId: Uuid) | Delete(exportId: Uuid)

  datatype MarkResult = Recorded | NotFound | StateConflict

  // A user's request for a tree, and what it asked for; `parameters` stands for the canonical form of the JSON document.
  datatype RequestKey = RequestKey(tree: Uuid, user: Uuid, clientRequest: Uuid)

  datatype Wanted = Wanted(format: string, schemaVersion: int, parameters: string)

  datatype Requested = Requested(id: Uuid, wanted: Wanted)

  datatype CreateResult = Created(id: Uuid) | Existing(id: Uuid) | RequestConflict | IdTaken

  class ExportRepository {
    var rows: Rows
    var jobs: set<ExportJob>
    var requests: map<RequestKey, Requested>

    constructor ()
      ensures rows == map[] && jobs == {} && requests == map[]
    {
      rows, jobs, requests := map[], {}, map[];
    }

    // An export and its generation job appear together or not at all. A request that is repeated finds the export it
    // made the first time; the same request identifier for something else is a conflict.
    method CreateAccessible(id: Uuid, key: RequestKey, wanted: Wanted) returns (result: CreateResult)
      modifies this
      ensures result == RequestConflict <==> key in old(requests) && old(requests)[key].wanted != wanted
      ensures result.Existing? <==> key in old(requests) && old(requests)[key].wanted == wanted
      ensures result.Created? <==> key !in old(requests) && id !in old(rows)
      ensures result.Created? ==> result.id == id
      ensures rows == if result.Created? then Create(old(rows), id, key.tree, wanted.format) else old(rows)
      ensures result.Created? ==> rows.Keys == old(rows).Keys + {id} && Open(rows[id]) && rows[id].resultKey == NoKey
      ensures forall other :: other in old(rows) ==> other in rows && rows[other] == old(rows)[other]
      ensures jobs == old(jobs) + if result.Created? then {Generate(id)} else {}
      ensures requests == if result.Created? then old(requests)[key := Requested(id, wanted)] else old(requests)
      ensures result.Created? || result.Existing? ==> key in requests && requests[key] == Requested(result.id, wanted)
    {
      if key in requests {
        return if requests[key].wanted == wanted then Existing(requests[key].id) else RequestConflict;
      }
      if id in rows {
        return IdTaken;
      }
      rows := rows[id := Export(key.tree, wanted.format, Queued, NoKey, 0, "", 0)];
      jobs := jobs + {Generate(id)};
      requests := requests[key := Requested(id, wanted)];
      result := Created(id);
    }

    // The generator goes on exactly with the exports that can still be completed.
    method AcquireForGeneration(id: Uuid) returns (found: bool, status: Status)
      modifies this`rows
      ensures rows == Acquire(old(rows), id) && OnlyMoves(old(rows), rows, id)
      ensures found <==> id in rows
      ensures found ==> status == rows[id].status && (status == Running <==> Open(old(rows)[id]))
      ensures found ==> SameResultColumns(rows[id], old(rows)[id])
      ensures found && !Open(old(rows)[id]) ==> rows == old(rows)
    {
      found, status := id in rows, Queued;
      if found {
        status := rows[id].status;
        if status == Queued {
          rows := rows[id := rows[id].(status := Running)];
          status := Running;
        }
      }
    }

    // Only a running export takes up a result; no recorded result is ever replaced.
    method MarkCompletedUpdate(id: Uuid, key: ObjectKey, sizeBytes: nat, checksum: string, expiresAt: int)
        returns (affected: bool)
      modifies this`rows
      ensures rows == CompleteUpdate(old(rows), id, key, sizeBytes, checksum, expiresAt) && OnlyMoves(old(rows), rows, id)
      ensures affected <==> id in old(rows) && old(rows)[id].status == Running
      ensures affected ==> SameResult(rows, id, key, checksum) && rows[id].sizeBytes == sizeBytes && rows[id].expiresAt == expiresAt
      ensures !affected ==> rows == old(rows)
    {
      affected := id in rows && rows[id].status == Running;
      if affected {
        rows := rows[id := rows[id].(status := Completed, resultKey := Key(key), sizeBytes := sizeBytes,
                                     checksum := checksum, expiresAt := expiresAt)];
      }
    }

    // Afterwards nobody can complete the export any more, whether the caller sees success or a conflict.
    method MarkFailed(id: Uuid) returns (result: MarkResult)
      modifies this`rows
      ensures rows == Fail(old(rows), id) && OnlyMoves(old(rows), rows, id)
      ensures result == NotFound <==> id !in rows
      ensures id in rows ==> !Open(rows[id]) && SameResultColumns(rows[id], old(rows)[id])
      ensures result == StateConflict <==> id in rows && rows[id].status == Completed
      ensures id in rows && !Open(old(rows)[id]) ==> rows == old(rows)
    {
      if id !in rows {
        return NotFound;
      }
      if rows[id].status == Queued || rows[id].status == Running {
        rows := rows[id := rows[id].(status := Failed)];
        return Recorded;
      }
      result := if rows[id].status != Failed && rows[id].status != Expired then StateConflict else Recorded;
    }

    // Afterwards the export is expired, still knows its object, and has a job that will delete it.
    method ExpireAccessible(id: Uuid) returns (found: bool)
      modifies this`rows, this`jobs
      ensures rows == Expire(old(rows), id) && OnlyMoves(old(rows), rows, id)
      ensures found <==> id in rows
      ensures found ==> rows[id].status == Expired && SameResultColumns(rows[id], old(rows)[id])
      ensures jobs == old(jobs) + if found then {Delete(id)} else {}
    {
      found := id in rows;
      if found {
        if rows[id].status != Expired {
          rows := rows[id := rows[id].(status := Expired)];
        }
        jobs := jobs + {Delete(id)};
      }
    }

    // Reserves at most `limit` stale rows, none of them locked elsewhere, the oldest first; exactly the reserved rows
    // expire.
    method ReserveCleanupCandidates(before: int, limit: nat, locked: set<Uuid>) returns (candidates: seq<Candidate>)
      modifies this`rows
      ensures |candidates| <= limit && OncePerExport(candidates)
      ensures forall c :: c in candidates ==> Reservable(old(rows), before, locked, c)
      ensures rows == ExpireAll(old(rows), Reserved(candidates))
      ensures forall id :: id in old(rows) && id !in locked && Stale(old(rows)[id], before) && id !in Reserved(candidates) ==>
        |candidates| == limit && forall r :: r in Reserved(candidates) && r in old(rows) ==> Older(old(rows), r, id)
    {
      candidates := [];
      var rest := set id | id in rows && id !in locked && Stale(rows[id], before);
      while rest != {} && |candidates| < limit
        invariant |candidates| <= limit && OncePerExport(candidates)
        invariant forall id :: id in rest ==> id in old(rows) && id !in locked && Stale(old(rows)[id], before)
        invariant rest !! Reserved(candidates)
        invariant forall c :: c in candidates ==> Reservable(old(rows), before, locked, c)
        invariant rows == ExpireAll(old(rows), Reserved(candidates))
        invariant forall id :: id in old(rows) && id !in locked && Stale(old(rows)[id], before) ==> id in rest || id in Reserved(candidates)
        invariant forall id, r :: id in rest && r in Reserved(candidates) && r in old(rows) ==> Older(old(rows), r, id)
        decreases rest
      {
        var id := Oldest(rows, rest);
        rest := rest - {id};
        ReserveOne(candidates, Candidate(id, rows[id].resultKey));
        candidates := candidates + [Candidate(id, rows[id].resultKey)];
        rows := rows[id := rows[id].(status := Expired)];
      }
    }

    method GetDeletionCandidate(id: Uuid) returns (found: bool, candidate: Candidate)
      ensures found <==> id in rows && rows[id].status == Expired
      ensures found ==> candidate == Candidate(id, rows[id].resultKey)
    {
      found := id in rows && rows[id].status == Expired;
      candidate := Candidate(id, if found then rows[id].resultKey else NoKey);
    }

    method ClearExpiredResult(candidate: Candidate)
      modifies this`rows
      ensures rows == Clear(old(rows), candidate.exportId)
    {
      if candidate.exportId in rows && rows[candidate.exportId].status == Expired {
        rows := rows[candidate.exportId := rows[candidate.exportId].(resultKey := NoKey, sizeBytes := 0, checksum := "")];
      }
    }
  }
}
