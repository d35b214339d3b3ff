/** Export generation and cleanup over two stores that share no transaction. */
module ExportProtocol {
  import opened Graphs
  import opened ExportRows

  // Where a run of the generator stands between two statements.
  datatype Generator =
    | Idle
    | Rendering(exportId: Uuid)
    | Uploaded(exportId: Uuid, body: Body)
    | Unmatched(exportId: Uuid, body: Body)      // the completing update matched no row
    | Conflicted(exportId: Uuid, body: Body)     // another state was recorded: the object is to be deleted
    | Giving(exportId: Uuid)                     // an error: the export may be marked as failed

  // A cleanup or deletion job between reserving a row, deleting its object and clearing the row.
  datatype Cleaner = Picked(candidate: Candidate) | ObjectDeleted(candidate: Candidate)

  datatype System = System(rows: Rows, store: map<ObjectKey, Body>, generators: map<string, Generator>, cleaners: map<nat, Cleaner>)

  datatype Event =
    | CreateExport(id: Uuid, tree: Uuid, format: string)
    | AcquireExport(g: string, id: Uuid, confirmed: bool)
    | PutResult(g: string, body: Body, confirmed: bool)
    | Complete(g: string, expiresAt: int, confirmed: bool)
    | Recheck(g: string)
    | DeleteConflicting(g: string)
    | MarkFailed(g: string)
    | Crash(g: string)
    | ExpireByUser(id: Uuid)
    | Reserve(c: nat, id: Uuid, before: int)
    | PickExpired(c: nat, id: Uuid)
    | DeleteObject(c: nat)
    | ClearResult(c: nat)

  function GeneratorOf(s: System, g: string): Generator {
    if g in s.generators then s.generators[g] else Idle
  }

  function SetGenerator(s: System, g: string, state: Generator): System {
    s.(generators := s.generators[g := state])
  }

  function KeyFor(rows: Rows, id: Uuid, checksum: string): ObjectKey
    requires id in rows
  {
    ResultObjectKey(rows[id].tree, id, rows[id].format, checksum)
  }

  // The effect of one statement on the database or the object store. An unconfirmed effect took place, but its
  // answer was lost and the caller sees an error.
  function Apply(sha: Body -> string, s: System, e: Event): System {
    match e
    case CreateExport(id, tree, format) => s.(rows := Create(s.rows, id, tree, format))
    case AcquireExport(g, id, confirmed) =>
      if GeneratorOf(s, g) != Idle || id !in s.rows then s else
      var next := s.(rows := Acquire(s.rows, id));
      if confirmed && next.rows[id].status == Running then SetGenerator(next, g, Rendering(id)) else next
    case PutResult(g, body, confirmed) =>
      var state := GeneratorOf(s, g);
      if !state.Rendering? || state.exportId !in s.rows then s else
      var next := s.(store := s.store[KeyFor(s.rows, state.exportId, sha(body)) := body]);
      SetGenerator(next, g, if confirmed then Uploaded(state.exportId, body) else Giving(state.exportId))
    case Complete(g, expiresAt, confirmed) =>
      var state := GeneratorOf(s, g);
      if !state.Uploaded? || state.exportId !in s.rows then s else
      var key := KeyFor(s.rows, state.exportId, sha(state.body));
      var next := s.(rows := CompleteUpdate(s.rows, state.exportId, key, |state.body|, sha(state.body), expiresAt));
      SetGenerator(next, g,
        if !confirmed then Giving(state.exportId)
        else if s.rows[state.exportId].status == Running then Idle
        else Unmatched(state.exportId, state.body))
    case Recheck(g) =>
      var state := GeneratorOf(s, g);
      if !state.Unmatched? || state.exportId !in s.rows then s else
      var key := KeyFor(s.rows, state.exportId, sha(state.body));
      SetGenerator(s, g,
        if SameResult(s.rows, state.exportId, key, sha(state.body)) then Idle else Conflicted(state.exportId, state.body))
    case DeleteConflicting(g) =>
      var state := GeneratorOf(s, g);
      if !state.Conflicted? || state.exportId !in s.rows then s else
      SetGenerator(s.(store := s.store - {KeyFor(s.rows, state.exportId, sha(state.body))}), g, Idle)
    case MarkFailed(g) =>
      var state := GeneratorOf(s, g);
      if state.Idle? || state.Conflicted? || state.exportId !in s.rows then s
      else SetGenerator(s.(rows := Fail(s.rows, state.exportId)), g, Idle)
    case Crash(g) => SetGenerator(s, g, Idle)
    case ExpireByUser(id) => s.(rows := Expire(s.rows, id))
    case Reserve(c, id, before) =>
      if c in s.cleaners || id !in s.rows || !Stale(s.rows[id], before) then s else
      System(Expire(s.rows, id), s.store, s.generators, s.cleaners[c := Picked(Candidate(id, s.rows[id].resultKey))])
    case PickExpired(c, id) =>
      if c in s.cleaners || id !in s.rows || s.rows[id].status != Expired then s else
      s.(cleaners := s.cleaners[c := Picked(Candidate(id, s.rows[id].resultKey))])
    case DeleteObject(c) =>
      if c !in s.cleaners || !s.cleaners[c].Picked? then s else
      var candidate := s.cleaners[c].candidate;
      s.(store := if candidate.resultKey == NoKey then s.store else s.store - {candidate.resultKey.key},
         cleaners := s.cleaners[c := ObjectDeleted(candidate)])
    case ClearResult(c) =>
      if c !in s.cleaners || !s.cleaners[c].ObjectDeleted? then s else
      s.(rows := Clear(s.rows, s.cleaners[c].candidate.exportId), cleaners := s.cleaners - {c})
  }

  // ---- The invariant ----

  // The store says the truth about its keys: an object lies under the key of its own checksum.
  ghost predicate TrueKeys(sha: Body -> string, rows: Rows, store: map<ObjectKey, Body>) {
    forall k :: k in store ==> k.exportId in rows && k == KeyFor(rows, k.exportId, sha(store[k]))
  }

  // The recorded size and checksum are those of one and the same result.
  ghost predicate Recorded(sha: Body -> string, row: Export) {
    exists body: Body :: sha(body) == row.checksum && |body| == row.sizeBytes
  }

  ghost predicate RowInv(sha: Body -> string, s: System, id: Uuid)
    requires id in s.rows
  {
    var row := s.rows[id];
    && (row.resultKey.Key? ==> row.resultKey.key.exportId == id)
    && (row.status == Completed ==>
          && row.resultKey == Key(KeyFor(s.rows, id, row.checksum)) && row.resultKey.key in s.store
          && Recorded(sha, row))
  }

  ghost predicate GeneratorInv(sha: Body -> string, s: System, state: Generator) {
    match state
    case Idle => true
    case Rendering(id) => id in s.rows && s.rows[id].status != Queued
    case Giving(id) => id in s.rows && s.rows[id].status != Queued
    case Uploaded(id, body) =>
      && id in s.rows && s.rows[id].status != Queued
      && (s.rows[id].status == Running ==> KeyFor(s.rows, id, sha(body)) in s.store)
    case Unmatched(id, body) => id in s.rows && !Open(s.rows[id])
    case Conflicted(id, body) =>
      && id in s.rows && !Open(s.rows[id])
      && !(s.rows[id].status == Completed && s.rows[id].resultKey == Key(KeyFor(s.rows, id, sha(body))))
  }

  ghost predicate CleanerInv(s: System, c: Cleaner) {
    && c.candidate.exportId in s.rows && s.rows[c.candidate.exportId].status == Expired
    && (c.candidate.resultKey.Key? ==> c.candidate.resultKey.key.exportId == c.candidate.exportId)
  }

  ghost predicate Inv(sha: Body -> string, s: System) {
    && TrueKeys(sha, s.rows, s.store)
    && (forall id :: id in s.rows ==> RowInv(sha, s, id))
    && (forall g :: g in s.generators ==> GeneratorInv(sha, s, s.generators[g]))
    && (forall c :: c in s.cleaners ==> CleanerInv(s, s.cleaners[c]))
  }

  // ---- Steps on the rows ----

  // A change of the table in which rows move legally, nothing becomes completed and no result key appears.
  ghost predicate TableMoves(rows: Rows, next: Rows) {
    && rows.Keys <= next.Keys
    && (forall id :: id in rows ==> RowMoves(rows[id], next[id]))
    && (forall id :: id in next && id !in rows ==> next[id].status == Queued && next[id].resultKey == NoKey)
    && (forall id :: id in rows && next[id].status == Completed ==> rows[id].status == Completed)
    && (forall id :: id in rows && next[id].resultKey.Key? ==> next[id].resultKey == rows[id].resultKey)
  }

  // Every statement that completes nothing is such a change.
  lemma CreateMovesTable(rows: Rows, id: Uuid, tree: Uuid, format: string)
    ensures TableMoves(rows, Create(rows, id, tree, format))
  {
  }

  lemma AcquireMovesTable(rows: Rows, id: Uuid)
    ensures TableMoves(rows, Acquire(rows, id))
  {
  }

  lemma FailMovesTable(rows: Rows, id: Uuid)
    ensures TableMoves(rows, Fail(rows, id))
  {
  }

  lemma ExpireMovesTable(rows: Rows, id: Uuid)
    ensures TableMoves(rows, Expire(rows, id))
  {
  }

  lemma ClearMovesTable(rows: Rows, id: Uuid)
    ensures TableMoves(rows, Clear(rows, id))
  {
  }

  lemma RowKept(sha: Body -> string, s: System, rows: Rows, id: Uuid)
    requires Inv(sha, s) && TableMoves(s.rows, rows) && id in rows
    ensures RowInv(sha, s.(rows := rows), id)
  {
    if id in s.rows {
      assert RowInv(sha, s, id) && RowMoves(s.rows[id], rows[id]);
    }
  }

  lemma KnowledgeKept(sha: Body -> string, s: System, rows: Rows, state: Generator)
    requires TableMoves(s.rows, rows) && GeneratorInv(sha, s, state)
    ensures GeneratorInv(sha, s.(rows := rows), state)
  {
    if !state.Idle? {
      assert RowMoves(s.rows[state.exportId], rows[state.exportId]);
    }
  }

  // Such a change leaves everybody's knowledge intact.
  lemma RowsKeepInv(sha: Body -> string, s: System, rows: Rows)
    requires Inv(sha, s) && TableMoves(s.rows, rows)
    ensures Inv(sha, s.(rows := rows))
  {
    var next := s.(rows := rows);
    forall id | id in rows ensures RowInv(sha, next, id) {
      RowKept(sha, s, rows, id);
    }
    forall g | g in s.generators ensures GeneratorInv(sha, next, s.generators[g]) {
      KnowledgeKept(sha, s, rows, s.generators[g]);
    }
    forall c | c in s.cleaners ensures CleanerInv(next, s.cleaners[c]) {
      assert CleanerInv(s, s.cleaners[c]);
      assert RowMoves(s.rows[s.cleaners[c].candidate.exportId], rows[s.cleaners[c].candidate.exportId]);
    }
    forall k | k in s.store ensures k.exportId in rows && k == KeyFor(rows, k.exportId, sha(s.store[k])) {
      assert RowMoves(s.rows[k.exportId], rows[k.exportId]);
    }
  }

  lemma SameKnowledge(sha: Body -> string, s: System, t: System, state: Generator)
    requires s.rows == t.rows && s.store == t.store
    ensures GeneratorInv(sha, s, state) <==> GeneratorInv(sha, t, state)
  {
  }

  lemma GeneratorKeepsInv(sha: Body -> string, s: System, g: string, state: Generator)
    requires Inv(sha, s) && GeneratorInv(sha, s, state)
    ensures Inv(sha, SetGenerator(s, g, state))
  {
    var next := SetGenerator(s, g, state);
    forall id | id in next.rows ensures RowInv(sha, next, id) {
      assert RowInv(sha, s, id);
    }
    forall h | h in next.generators ensures GeneratorInv(sha, next, next.generators[h]) {
      assert h != g ==> GeneratorInv(sha, s, s.generators[h]);
      SameKnowledge(sha, s, next, next.generators[h]);
    }
    forall c | c in next.cleaners ensures CleanerInv(next, next.cleaners[c]) {
      assert CleanerInv(s, s.cleaners[c]);
    }
  }

  // Objects may disappear as long as no completed or still completable export needs them.
  lemma RemovalKeepsInv(sha: Body -> string, s: System, key: ObjectKey)
    requires Inv(sha, s) && key.exportId in s.rows && !Open(s.rows[key.exportId])
    requires !(s.rows[key.exportId].status == Completed && s.rows[key.exportId].resultKey == Key(key))
    ensures Inv(sha, s.(store := s.store - {key}))
  {
    var next := s.(store := s.store - {key});
    forall id | id in s.rows ensures RowInv(sha, next, id) {
      assert RowInv(sha, s, id);
    }
    forall g | g in s.generators ensures GeneratorInv(sha, next, s.generators[g]) {
      assert GeneratorInv(sha, s, s.generators[g]);
    }
    forall c | c in s.cleaners ensures CleanerInv(next, s.cleaners[c]) {
      assert CleanerInv(s, s.cleaners[c]);
    }
  }

  lemma PutKeepsInv(sha: Body -> string, s: System, id: Uuid, body: Body)
    requires Inv(sha, s) && id in s.rows
    ensures Inv(sha, s.(store := s.store[KeyFor(s.rows, id, sha(body)) := body]))
  {
    var next := s.(store := s.store[KeyFor(s.rows, id, sha(body)) := body]);
    forall other | other in s.rows ensures RowInv(sha, next, other) {
      assert RowInv(sha, s, other);
    }
    forall g | g in s.generators ensures GeneratorInv(sha, next, s.generators[g]) {
      assert GeneratorInv(sha, s, s.generators[g]);
    }
    forall c | c in s.cleaners ensures CleanerInv(next, s.cleaners[c]) {
      assert CleanerInv(s, s.cleaners[c]);
    }
  }

  lemma CompletionKeepsInv(sha: Body -> string, s: System, id: Uuid, body: Body, expiresAt: int)
    requires Inv(sha, s) && GeneratorInv(sha, s, Uploaded(id, body))
    ensures var key := KeyFor(s.rows, id, sha(body));
      Inv(sha, s.(rows := CompleteUpdate(s.rows, id, key, |body|, sha(body), expiresAt)))
  {
    var key := KeyFor(s.rows, id, sha(body));
    var rows := CompleteUpdate(s.rows, id, key, |body|, sha(body), expiresAt);
    var next := s.(rows := rows);
    forall other, c | other in s.rows ensures KeyFor(rows, other, c) == KeyFor(s.rows, other, c) {
    }
    forall other | other in rows ensures RowInv(sha, next, other) {
      assert RowInv(sha, s, other);
    }
    forall g | g in s.generators ensures GeneratorInv(sha, next, s.generators[g]) {
      assert GeneratorInv(sha, s, s.generators[g]);
    }
    forall c | c in s.cleaners ensures CleanerInv(next, s.cleaners[c]) {
      assert CleanerInv(s, s.cleaners[c]);
    }
  }

  lemma CompleteStep(sha: Body -> string, s: System, g: string, expiresAt: int, confirmed: bool)
    requires Inv(sha, s)
    ensures Inv(sha, Apply(sha, s, Complete(g, expiresAt, confirmed)))
  {
    var state := GeneratorOf(s, g);
    if state.Uploaded? {
      assert GeneratorInv(sha, s, state);
      CompletionKeepsInv(sha, s, state.exportId, state.body, expiresAt);
      var key := KeyFor(s.rows, state.exportId, sha(state.body));
      var next := s.(rows := CompleteUpdate(s.rows, state.exportId, key, |state.body|, sha(state.body), expiresAt));
      GeneratorKeepsInv(sha, next, g,
        if !confirmed then Giving(state.exportId)
        else if s.rows[state.exportId].status == Running then Idle
        else Unmatched(state.exportId, state.body));
    }
  }

  lemma AcquireStep(sha: Body -> string, s: System, g: string, id: Uuid, confirmed: bool)
    requires Inv(sha, s)
    ensures Inv(sha, Apply(sha, s, AcquireExport(g, id, confirmed)))
  {
    if GeneratorOf(s, g) == Idle && id in s.rows {
      AcquireMovesTable(s.rows, id);
      RowsKeepInv(sha, s, Acquire(s.rows, id));
      var next := s.(rows := Acquire(s.rows, id));
      if confirmed && next.rows[id].status == Running {
        GeneratorKeepsInv(sha, next, g, Rendering(id));
      }
    }
  }

  lemma PutStep(sha: Body -> string, s: System, g: string, body: Body, confirmed: bool)
    requires Inv(sha, s)
    ensures Inv(sha, Apply(sha, s, PutResult(g, body, confirmed)))
  {
    var state := GeneratorOf(s, g);
    if state.Rendering? {
      assert GeneratorInv(sha, s, state);
      PutKeepsInv(sha, s, state.exportId, body);
      var next := s.(store := s.store[KeyFor(s.rows, state.exportId, sha(body)) := body]);
      GeneratorKeepsInv(sha, next, g, if confirmed then Uploaded(state.exportId, body) else Giving(state.exportId));
    }
  }

  lemma DeleteConflictingStep(sha: Body -> string, s: System, g: string)
    requires Inv(sha, s)
    ensures Inv(sha, Apply(sha, s, DeleteConflicting(g)))
  {
    var state := GeneratorOf(s, g);
    if state.Conflicted? {
      assert GeneratorInv(sha, s, state);
      RemovalKeepsInv(sha, s, KeyFor(s.rows, state.exportId, sha(state.body)));
      GeneratorKeepsInv(sha, s.(store := s.store - {KeyFor(s.rows, state.exportId, sha(state.body))}), g, Idle);
    }
  }

  lemma MarkFailedStep(sha: Body -> string, s: System, g: string)
    requires Inv(sha, s)
    ensures Inv(sha, Apply(sha, s, MarkFailed(g)))
  {
    var state := GeneratorOf(s, g);
    if !state.Idle? && !state.Conflicted? {
      assert GeneratorInv(sha, s, state);
      FailMovesTable(s.rows, state.exportId);
      RowsKeepInv(sha, s, Fail(s.rows, state.exportId));
      GeneratorKeepsInv(sha, s.(rows := Fail(s.rows, state.exportId)), g, Idle);
    }
  }

  // What the recheck has seen stays true: a row that is no longer open never takes up this result.
  lemma RecheckStep(sha: Body -> string, s: System, g: string)
    requires Inv(sha, s)
    ensures Inv(sha, Apply(sha, s, Recheck(g)))
  {
    var state := GeneratorOf(s, g);
    if state.Unmatched? {
      var id, body := state.exportId, state.body;
      assert GeneratorInv(sha, s, state) && RowInv(sha, s, id);
      if !SameResult(s.rows, id, KeyFor(s.rows, id, sha(body)), sha(body)) {
        KeyDeterminesChecksum(s.rows[id].tree, id, s.rows[id].format, sha(body), s.rows[id].checksum);
        GeneratorKeepsInv(sha, s, g, Conflicted(id, body));
      } else {
        GeneratorKeepsInv(sha, s, g, Idle);
      }
    }
  }

  lemma CleanerKeepsInv(sha: Body -> string, s: System, cleaners: map<nat, Cleaner>)
    requires Inv(sha, s) && forall c :: c in cleaners ==> CleanerInv(s, cleaners[c])
    ensures Inv(sha, s.(cleaners := cleaners))
  {
    var next := s.(cleaners := cleaners);
    forall id | id in s.rows ensures RowInv(sha, next, id) {
      assert RowInv(sha, s, id);
    }
    forall g | g in s.generators ensures GeneratorInv(sha, next, s.generators[g]) {
      SameKnowledge(sha, s, next, s.generators[g]);
    }
    forall c | c in cleaners ensures CleanerInv(next, cleaners[c]) {
      assert CleanerInv(s, cleaners[c]);
    }
  }

  lemma NewCleaner(sha: Body -> string, s: System, c: nat, id: Uuid)
    requires Inv(sha, s) && id in s.rows && s.rows[id].status == Expired
    ensures Inv(sha, s.(cleaners := s.cleaners[c := Picked(Candidate(id, s.rows[id].resultKey))]))
  {
    assert RowInv(sha, s, id);
    var cleaners := s.cleaners[c := Picked(Candidate(id, s.rows[id].resultKey))];
    forall d | d in cleaners ensures CleanerInv(s, cleaners[d]) {
      assert d != c ==> CleanerInv(s, s.cleaners[d]);
    }
    CleanerKeepsInv(sha, s, cleaners);
  }

  lemma ReserveStep(sha: Body -> string, s: System, c: nat, id: Uuid, before: int)
    requires Inv(sha, s)
    ensures Inv(sha, Apply(sha, s, Reserve(c, id, before)))
  {
    if c !in s.cleaners && id in s.rows && Stale(s.rows[id], before) {
      assert RowInv(sha, s, id);
      ExpireMovesTable(s.rows, id);
      RowsKeepInv(sha, s, Expire(s.rows, id));
      NewCleaner(sha, s.(rows := Expire(s.rows, id)), c, id);
    }
  }

  lemma PickStep(sha: Body -> string, s: System, c: nat, id: Uuid)
    requires Inv(sha, s)
    ensures Inv(sha, Apply(sha, s, PickExpired(c, id)))
  {
    if c !in s.cleaners && id in s.rows && s.rows[id].status == Expired {
      NewCleaner(sha, s, c, id);
    }
  }

  lemma DeleteStep(sha: Body -> string, s: System, c: nat)
    requires Inv(sha, s)
    ensures Inv(sha, Apply(sha, s, DeleteObject(c)))
  {
    if c in s.cleaners && s.cleaners[c].Picked? {
      var candidate := s.cleaners[c].candidate;
      assert CleanerInv(s, s.cleaners[c]);
      var next := s;
      if candidate.resultKey != NoKey {
        RemovalKeepsInv(sha, s, candidate.resultKey.key);
        next := s.(store := s.store - {candidate.resultKey.key});
      }
      CleanerKeepsInv(sha, next, next.cleaners[c := ObjectDeleted(candidate)]);
    }
  }

  lemma ClearStep(sha: Body -> string, s: System, c: nat)
    requires Inv(sha, s)
    ensures Inv(sha, Apply(sha, s, ClearResult(c)))
  {
    if c in s.cleaners && s.cleaners[c].ObjectDeleted? {
      var rows := Clear(s.rows, s.cleaners[c].candidate.exportId);
      ClearMovesTable(s.rows, s.cleaners[c].candidate.exportId);
      RowsKeepInv(sha, s, rows);
      CleanerKeepsInv(sha, s.(rows := rows), s.cleaners - {c});
    }
  }

  lemma StepKeepsInv(sha: Body -> string, s: System, e: Event)
    requires Inv(sha, s)
    ensures Inv(sha, Apply(sha, s, e))
  {
    match e
    case CreateExport(id, tree, format) =>
      CreateMovesTable(s.rows, id, tree, format);
      RowsKeepInv(sha, s, Create(s.rows, id, tree, format));
    case ExpireByUser(id) =>
      ExpireMovesTable(s.rows, id);
      RowsKeepInv(sha, s, Expire(s.rows, id));
    case Complete(g, expiresAt, confirmed) => CompleteStep(sha, s, g, expiresAt, confirmed);
    case AcquireExport(g, id, confirmed) => AcquireStep(sha, s, g, id, confirmed);
    case PutResult(g, body, confirmed) => PutStep(sha, s, g, body, confirmed);
    case Recheck(g) => RecheckStep(sha, s, g);
    case DeleteConflicting(g) => DeleteConflictingStep(sha, s, g);
    case MarkFailed(g) => MarkFailedStep(sha, s, g);
    case Crash(g) => GeneratorKeepsInv(sha, s, g, Idle);
    case Reserve(c, id, before) => ReserveStep(sha, s, c, id, before);
    case PickExpired(c, id) => PickStep(sha, s, c, id);
    case DeleteObject(c) => DeleteStep(sha, s, c);
    case ClearResult(c) => ClearStep(sha, s, c);
  }

  // ---- Over whole runs ----

  ghost function Run(sha: Body -> string, s: System, events: seq<Event>): System {
    if events == [] then s else Apply(sha, Run(sha, s, events[..|events| - 1]), events[|events| - 1])
  }

  const EMPTY := System(map[], map[], map[], map[])

  lemma {:induction false} RunsKeepInv(sha: Body -> string, events: seq<Event>)
    ensures Inv(sha, Run(sha, EMPTY, events))
  {
    if events != [] {
      RunsKeepInv(sha, events[..|events| - 1]);
      StepKeepsInv(sha, Run(sha, EMPTY, events[..|events| - 1]), events[|events| - 1]);
    }
  }

  ghost predicate Injective(sha: Body -> string) {
    forall a, b :: sha(a) == sha(b) ==> a == b
  }

  // Whatever generators, users and cleaners do, and wherever they stop: a completed export has its object in the
  // store, under the recorded key and with the recorded checksum. Its size is the recorded one as well, unless
  // two results collide under the digest.
  lemma CompletedHasObject(sha: Body -> string, events: seq<Event>, id: Uuid)
    ensures var s := Run(sha, EMPTY, events);
      id in s.rows && s.rows[id].status == Completed ==>
        && s.rows[id].resultKey.Key? && s.rows[id].resultKey.key in s.store
        && sha(s.store[s.rows[id].resultKey.key]) == s.rows[id].checksum
        && (Injective(sha) ==> |s.store[s.rows[id].resultKey.key]| == s.rows[id].sizeBytes)
  {
    RunsKeepInv(sha, events);
    var s := Run(sha, EMPTY, events);
    if id in s.rows && s.rows[id].status == Completed {
      assert RowInv(sha, s, id);
      var key := s.rows[id].resultKey.key;
      assert key == KeyFor(s.rows, id, sha(s.store[key]));
      KeyDeterminesChecksum(s.rows[id].tree, id, s.rows[id].format, sha(s.store[key]), s.rows[id].checksum);
    }
  }

  // A row after an event, compared with the row before it.
  ghost predicate MovedBy(sha: Body -> string, s: System, e: Event, id: Uuid) {
    id in s.rows ==> id in Apply(sha, s, e).rows && RowMoves(s.rows[id], Apply(sha, s, e).rows[id])
  }

  lemma GeneratorMoves(sha: Body -> string, s: System, e: Event, id: Uuid)
    requires e.AcquireExport? || e.Complete? || e.MarkFailed?
    ensures MovedBy(sha, s, e, id)
  {
  }

  lemma ExpiryMoves(sha: Body -> string, s: System, e: Event, id: Uuid)
    requires e.CreateExport? || e.ExpireByUser? || e.Reserve? || e.ClearResult?
    ensures MovedBy(sha, s, e, id)
  {
  }

  lemma OthersMoveNothing(sha: Body -> string, s: System, e: Event)
    requires e.PutResult? || e.Recheck? || e.DeleteConflicting? || e.Crash? || e.PickExpired? || e.DeleteObject?
    ensures Apply(sha, s, e).rows == s.rows
  {
  }

  // Export states only move forward, and a result once completed is never replaced.
  lemma StatesMoveForward(sha: Body -> string, s: System, e: Event, id: Uuid)
    requires Inv(sha, s) && id in s.rows
    ensures id in Apply(sha, s, e).rows && RowMoves(s.rows[id], Apply(sha, s, e).rows[id])
  {
    if e.AcquireExport? || e.Complete? || e.MarkFailed? {
      GeneratorMoves(sha, s, e, id);
    } else if e.CreateExport? || e.ExpireByUser? || e.Reserve? || e.ClearResult? {
      ExpiryMoves(sha, s, e, id);
    } else {
      OthersMoveNothing(sha, s, e);
    }
  }
}
