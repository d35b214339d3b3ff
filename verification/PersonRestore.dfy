/** Restoring a soft-deleted person, which takes no lock: the one operation that can close an ancestry cycle. */
module PersonRestore {
  import opened Graphs
  import opened AncestryTables
  import opened Ancestry

  // ---- Histories with restores ----

  datatype Change = Statement(e: Event) | Restore(person: Uuid, version: int)

  ghost function Restored(s: System, p: Uuid, version: int): System {
    s.(tables := MutatePerson(s.tables, p, version, false))
  }

  ghost function Changed(s: System, c: Change): System {
    match c
    case Statement(e) => Apply(s, e)
    case Restore(p, version) => Restored(s, p, version)
  }

  ghost function History(changes: seq<Change>): System {
    if changes == [] then EMPTY else Changed(History(changes[..|changes| - 1]), changes[|changes| - 1])
  }

  ghost predicate NoSelfRelations(t: Tables) {
    forall id :: id in t.relations ==> t.relations[id].parent != t.relations[id].child
  }

  // The unique index: undeleted relations differ in parent, child or type.
  ghost predicate NoTwins(t: Tables) {
    forall a, b :: a in t.relations && b in t.relations && a != b && !t.relations[a].deleted && !t.relations[b].deleted ==>
      t.relations[a].parent != t.relations[b].parent || t.relations[a].child != t.relations[b].child ||
      t.relations[a].relationType != t.relations[b].relationType
  }

  ghost predicate RowsInv(t: Tables) {
    EndpointsExist(t) && NoSelfRelations(t) && NoTwins(t)
  }

  lemma InsertKeepsRows(t: Tables, id: Uuid, row: RelationRow)
    requires RowsInv(t) && Insertable(t, id, row)
    ensures RowsInv(t.(relations := t.relations[id := row]))
  {
  }

  lemma RetypeKeepsRows(t: Tables, id: Uuid, relationType: string, version: int)
    requires RowsInv(t) && Updatable(t, id, relationType, version)
    ensures RowsInv(t.(relations := t.relations[id := t.relations[id].(relationType := relationType, version := version)]))
  {
  }

  lemma WriteKeepsRows(t: Tables, request: Request)
    requires RowsInv(t)
    ensures RowsInv(WriteTables(t, request))
  {
    match request
    case CreateRelation(id, row) =>
      if Insertable(t, id, row) {
        InsertKeepsRows(t, id, row);
      }
    case UpdateRelation(id, relationType, version) =>
      if Updatable(t, id, relationType, version) {
        RetypeKeepsRows(t, id, relationType, version);
      }
    case DeleteRelation(id, version) =>
  }

  lemma {:induction false} HistoryKeepsRows(changes: seq<Change>)
    ensures RowsInv(History(changes).tables)
  {
    if changes != [] {
      var s := History(changes[..|changes| - 1]);
      HistoryKeepsRows(changes[..|changes| - 1]);
      match changes[|changes| - 1] {
        case Statement(Write(tx)) =>
          if tx in s.sessions {
            WriteKeepsRows(s.tables, s.sessions[tx].request);
          }
        case _ =>
      }
    }
  }

  // ---- When a restore is harmless ----

  ghost function ActiveParents(t: Tables, p: Uuid): set<Uuid> {
    set id | id in t.relations && !t.relations[id].deleted && t.relations[id].child == p && Active(t, t.relations[id].parent)
      :: t.relations[id].parent
  }

  ghost function ActiveChildren(t: Tables, p: Uuid): set<Uuid> {
    set id | id in t.relations && !t.relations[id].deleted && t.relations[id].parent == p && Active(t, t.relations[id].child)
      :: t.relations[id].child
  }

  lemma RestoredEdges(t: Tables, p: Uuid, version: int)
    requires NoSelfRelations(t) && p in t.persons && t.persons[p] == PersonRow(true, version)
    ensures LiveEdges(MutatePerson(t, p, version, false)) == WithVertex(LiveEdges(t), p, ActiveParents(t, p), ActiveChildren(t, p))
    ensures Absent(LiveEdges(t), p) && p !in ActiveParents(t, p) && p !in ActiveChildren(t, p)
  {
    var next := MutatePerson(t, p, version, false);
    var big := WithVertex(LiveEdges(t), p, ActiveParents(t, p), ActiveChildren(t, p));
    forall e | e in LiveEdges(next) ensures e in big {
      var id :| id in next.relations && Live(next, id) && e == Edge(next.relations[id].parent, next.relations[id].child);
      if e.parent != p && e.child != p {
        assert Live(t, id);
      }
    }
    forall e | e in big ensures e in LiveEdges(next) {
      if e in LiveEdges(t) {
        var id :| id in t.relations && Live(t, id) && e == Edge(t.relations[id].parent, t.relations[id].child);
        assert Live(next, id);
      } else if e.child == p {
        var id :| id in t.relations && !t.relations[id].deleted && t.relations[id].child == p && t.relations[id].parent == e.parent;
        assert Live(next, id);
      } else {
        var id :| id in t.relations && !t.relations[id].deleted && t.relations[id].parent == p && t.relations[id].child == e.child;
        assert Live(next, id);
      }
    }
  }

  // The relations whose creation has passed its cycle check but is not written yet: at most one, under the lock.
  ghost function PendingEdges(s: System): set<Edge> {
    set tx | tx in s.sessions && Creating(s, tx, CycleChecked)
      :: Edge(s.sessions[tx].request.row.parent, s.sessions[tx].request.row.child)
  }

  // Ancestry as it will be once the pending creation is written.
  ghost function PlannedEdges(s: System): set<Edge> {
    LiveEdges(s.tables) + PendingEdges(s)
  }

  ghost predicate LockHeld(s: System) {
    forall tx :: tx in s.sessions && s.sessions[tx].phase != Started ==> s.holder == HeldBy(tx)
  }

  // What the protocol keeps is that the planned ancestry is acyclic.
  lemma InvIsPlannedAcyclic(s: System)
    requires EndpointsExist(s.tables) && LockHeld(s)
    ensures Inv(s) <==> Acyclic(PlannedEdges(s))
  {
    if tx :| tx in s.sessions && Creating(s, tx, CycleChecked) {
      var e := Edge(s.sessions[tx].request.row.parent, s.sessions[tx].request.row.child);
      assert e in PendingEdges(s);
      assert PendingEdges(s) == {e};
      if Acyclic(PlannedEdges(s)) {
        AcyclicSubset(LiveEdges(s.tables), PlannedEdges(s));
      }
      if Acyclic(LiveEdges(s.tables)) {
        AddEdgeAcyclic(LiveEdges(s.tables), e);
      }
    } else {
      assert PlannedEdges(s) == LiveEdges(s.tables);
    }
  }

  ghost function PlannedParents(s: System, p: Uuid): set<Uuid> {
    ActiveParents(s.tables, p) + set e | e in PendingEdges(s) && e.child == p :: e.parent
  }

  ghost function PlannedChildren(s: System, p: Uuid): set<Uuid> {
    ActiveChildren(s.tables, p) + set e | e in PendingEdges(s) && e.parent == p :: e.child
  }

  ghost function PlannedWithout(s: System, p: Uuid): set<Edge> {
    LiveEdges(s.tables) + set e | e in PendingEdges(s) && e.parent != p && e.child != p
  }

  predicate Returns(t: Tables, p: Uuid, version: int) {
    p in t.persons && t.persons[p] == PersonRow(true, version)
  }

  // Nobody below p is planned to be above p.
  ghost predicate Harmless(s: System, p: Uuid, version: int) {
    Returns(s.tables, p, version) ==>
      forall q, c :: q in PlannedParents(s, p) && c in PlannedChildren(s, p) ==> !Reaches(PlannedWithout(s, p), c, q)
  }

  lemma PlannedAfterRestore(s: System, p: Uuid, version: int)
    requires Inv(s) && NoSelfRelations(s.tables) && Returns(s.tables, p, version)
    ensures PlannedEdges(Restored(s, p, version)) == WithVertex(PlannedWithout(s, p), p, PlannedParents(s, p), PlannedChildren(s, p))
    ensures Absent(PlannedWithout(s, p), p) && p !in PlannedParents(s, p) && p !in PlannedChildren(s, p)
  {
    RestoredEdges(s.tables, p, version);
    assert PendingEdges(Restored(s, p, version)) == PendingEdges(s);
    forall e | e in PendingEdges(s) ensures e.parent != e.child {
      var tx :| tx in s.sessions && Creating(s, tx, CycleChecked) &&
        e == Edge(s.sessions[tx].request.row.parent, s.sessions[tx].request.row.child);
      if e.parent == e.child {
        assert WalkFromTo(LiveEdges(s.tables), [e.child], e.child, e.parent);
      }
    }
    var next := PlannedEdges(Restored(s, p, version));
    var big := WithVertex(PlannedWithout(s, p), p, PlannedParents(s, p), PlannedChildren(s, p));
    forall e | e in next ensures e in big {
      if e in PendingEdges(s) {
        assert e.child == p ==> e.parent in PlannedParents(s, p);
        assert e.parent == p ==> e.child in PlannedChildren(s, p);
      }
    }
  }

  // A restore keeps what the protocol keeps exactly when it is harmless: the visible ancestry stays acyclic, and so
  // it does when the creation that is under way gets written.
  lemma RestoreKeepsInvIff(s: System, p: Uuid, version: int)
    requires Inv(s) && NoSelfRelations(s.tables)
    ensures Inv(Restored(s, p, version)) <==> Harmless(s, p, version)
  {
    if Returns(s.tables, p, version) {
      var standing := PlannedWithout(s, p);
      PlannedAfterRestore(s, p, version);
      InvIsPlannedAcyclic(s);
      AcyclicSubset(standing, PlannedEdges(s));
      WithVertexAcyclic(standing, p, PlannedParents(s, p), PlannedChildren(s, p));
      InvIsPlannedAcyclic(Restored(s, p, version));
    }
  }

  // A creation whose insert will go through.
  predicate CanWrite(s: System, tx: nat) {
    && Creating(s, tx, CycleChecked) && !s.sessions[tx].request.row.deleted
    && Insertable(s.tables, s.sessions[tx].request.id, s.sessions[tx].request.row)
  }

  lemma ReachesBetweenActive(t: Tables, a: Uuid, b: Uuid)
    requires Reaches(LiveEdges(t), a, b) && a != b
    ensures Active(t, a) && Active(t, b)
  {
    var w :| WalkFromTo(LiveEdges(t), w, a, b);
    assert Edge(w[0], w[1]) in LiveEdges(t) && Edge(w[|w| - 2], w[|w| - 1]) in LiveEdges(t);
  }

  // An unacyclic plan becomes a visible cycle when its creation is written.
  lemma WrittenCycle(s: System, tx: nat)
    requires EndpointsExist(s.tables) && LockHeld(s) && !Acyclic(PlannedEdges(s)) && CanWrite(s, tx)
    ensures !Acyclic(LiveEdges(Apply(s, Write(tx)).tables))
  {
    var id, row := s.sessions[tx].request.id, s.sessions[tx].request.row;
    var live, e := LiveEdges(s.tables), Edge(row.parent, row.child);
    var next := Apply(s, Write(tx)).tables;
    assert PlannedEdges(s) == live + {e};
    forall f | f in live ensures f in LiveEdges(next) {
      var k :| k in s.tables.relations && Live(s.tables, k) && f == Edge(s.tables.relations[k].parent, s.tables.relations[k].child);
      assert Live(next, k);
    }
    if Acyclic(live) {
      AddEdgeAcyclic(live, e);
      ReachesBetweenActive(s.tables, row.child, row.parent);
      assert Live(next, id);
      assert live + {e} <= LiveEdges(next);
      if Acyclic(LiveEdges(next)) {
        AcyclicSubset(live + {e}, LiveEdges(next));
      }
    } else if Acyclic(LiveEdges(next)) {
      AcyclicSubset(live, LiveEdges(next));
    }
  }

  // Any other restore closes a cycle, at once or by the creation that is under way.
  lemma HarmfulRestoreClosesCycle(s: System, p: Uuid, version: int)
    requires Inv(s) && NoSelfRelations(s.tables) && !Harmless(s, p, version)
    ensures (forall tx :: !Creating(s, tx, CycleChecked)) ==> !Acyclic(LiveEdges(Restored(s, p, version).tables))
    ensures forall tx :: CanWrite(Restored(s, p, version), tx) ==>
      !Acyclic(LiveEdges(Apply(Restored(s, p, version), Write(tx)).tables))
  {
    var r := Restored(s, p, version);
    RestoreKeepsInvIff(s, p, version);
    InvIsPlannedAcyclic(r);
    if forall tx :: !Creating(s, tx, CycleChecked) {
      assert PlannedEdges(r) == LiveEdges(r.tables);
    }
    forall tx | CanWrite(r, tx) ensures !Acyclic(LiveEdges(Apply(r, Write(tx)).tables)) {
      WrittenCycle(r, tx);
    }
  }

  // ---- Whole histories ----

  ghost predicate SafeAfter(changes: seq<Change>, n: nat)
    requires n <= |changes|
  {
    Inv(History(changes[..n]))
  }

  ghost predicate HarmlessAt(changes: seq<Change>, n: nat)
    requires n < |changes|
  {
    changes[n].Restore? ==> Harmless(History(changes[..n]), changes[n].person, changes[n].version)
  }

  lemma HistoryStep(changes: seq<Change>, n: nat)
    requires n < |changes|
    ensures History(changes[..n + 1]) == Changed(History(changes[..n]), changes[n])
    ensures SafeAfter(changes, n) ==> (SafeAfter(changes, n + 1) <==> HarmlessAt(changes, n))
  {
    assert changes[..n + 1][..n] == changes[..n];
    var s := History(changes[..n]);
    if Inv(s) {
      HistoryKeepsRows(changes[..n]);
      match changes[n] {
        case Statement(e) => StepKeepsInv(s, e);
        case Restore(p, version) => RestoreKeepsInvIff(s, p, version);
      }
    }
  }

  // Over any history of transactions, deletions and restores: ancestry is safe all the way exactly when every
  // restore in it was harmless at its time.
  lemma {:induction false} SafeIffRestoresHarmless(changes: seq<Change>, k: nat)
    requires k <= |changes|
    ensures (forall n :: 0 <= n <= k ==> SafeAfter(changes, n)) <==> (forall n :: 0 <= n < k ==> HarmlessAt(changes, n))
  {
    if k == 0 {
      AncestryStaysAcyclic([]);
      assert changes[..0] == [];
      assert Run(EMPTY, []) == EMPTY;
    } else {
      SafeIffRestoresHarmless(changes, k - 1);
      HistoryStep(changes, k - 1);
    }
  }

  // In particular, restoring while nobody creates relations keeps visible ancestry acyclic exactly when no active
  // child of p reaches an active parent of p. The code does not look.
  lemma RestoreKeepsAcyclicIff(t: Tables, p: Uuid, version: int)
    requires NoSelfRelations(t) && Acyclic(LiveEdges(t)) && Returns(t, p, version)
    ensures Acyclic(LiveEdges(MutatePerson(t, p, version, false))) <==>
      forall q, c :: q in ActiveParents(t, p) && c in ActiveChildren(t, p) ==> !Reaches(LiveEdges(t), c, q)
  {
    RestoredEdges(t, p, version);
    WithVertexAcyclic(LiveEdges(t), p, ActiveParents(t, p), ActiveChildren(t, p));
  }
}
