/** Keeping ancestry acyclic: relation transactions under a per-tree lock, persons deleted without it. */
module Ancestry {
  import opened Graphs
  import opened AncestryTables
  import opened RelationQuery

  // ---- Transactions ----

  datatype Request =
    | CreateRelation(id: Uuid, row: RelationRow)
    | UpdateRelation(id: Uuid, relationType: string, version: int)
    | DeleteRelation(id: Uuid, version: int)

  // The statement a transaction has last completed.
  datatype Phase = Started | Locked | PersonsChecked | DuplicateChecked | CycleChecked

  datatype Session = Session(request: Request, phase: Phase)

  datatype LockHolder = Nobody | HeldBy(tx: nat)

  datatype System = System(tables: Tables, holder: LockHolder, sessions: map<nat, Session>)

  datatype Event =
    | Begin(tx: nat, request: Request)
    | AcquireLock(tx: nat)
    | CheckPersons(tx: nat)
    | CheckDuplicate(tx: nat)
    | CheckCycle(tx: nat)
    | Write(tx: nat)
    | Abort(tx: nat)
    | AddPerson(person: Uuid)
    | SoftDeletePerson(person: Uuid, version: int)

  predicate InPhase(s: System, tx: nat, phase: Phase) {
    tx in s.sessions && s.sessions[tx].phase == phase
  }

  predicate Creating(s: System, tx: nat, phase: Phase) {
    InPhase(s, tx, phase) && s.sessions[tx].request.CreateRelation?
  }

  function Advance(s: System, tx: nat, phase: Phase): System
    requires tx in s.sessions
  {
    s.(sessions := s.sessions[tx := s.sessions[tx].(phase := phase)])
  }

  // Commit and rollback both end the session and release its lock.
  function End(s: System, tx: nat, tables: Tables): System {
    System(tables, if s.holder == HeldBy(tx) then Nobody else s.holder, s.sessions - {tx})
  }

  function WriteTables(t: Tables, request: Request): Tables {
    match request
    case CreateRelation(id, row) =>
      if Insertable(t, id, row) then t.(relations := t.relations[id := row]) else t
    case UpdateRelation(id, relationType, version) =>
      if Updatable(t, id, relationType, version)
      then t.(relations := t.relations[id := t.relations[id].(relationType := relationType, version := version)])
      else t
    case DeleteRelation(id, version) =>
      if id in t.relations && t.relations[id].version == version && !t.relations[id].deleted
      then t.(relations := t.relations[id := t.relations[id].(deleted := true, version := version + 1)])
      else t
  }

  // One committed statement (or refused, blocked or aborting one). A statement that is not enabled changes nothing.
  ghost function Apply(s: System, e: Event): System {
    match e
    case Begin(tx, request) =>
      if tx !in s.sessions then s.(sessions := s.sessions[tx := Session(request, Started)]) else s
    case AcquireLock(tx) =>
      if InPhase(s, tx, Started) && s.holder == Nobody then Advance(s, tx, Locked).(holder := HeldBy(tx)) else s
    case CheckPersons(tx) =>
      if !Creating(s, tx, Locked) then s
      else if BothActive(s.tables, s.sessions[tx].request.row) then Advance(s, tx, PersonsChecked)
      else End(s, tx, s.tables)
    case CheckDuplicate(tx) =>
      if !Creating(s, tx, PersonsChecked) then s
      else if HasActiveTwin(s.tables, s.sessions[tx].request.row) then End(s, tx, s.tables)
      else Advance(s, tx, DuplicateChecked)
    case CheckCycle(tx) =>
      if !Creating(s, tx, DuplicateChecked) then s
      else if Reaches(QueryEdges(s.tables), s.sessions[tx].request.row.child, s.sessions[tx].request.row.parent)
      then End(s, tx, s.tables)
      else Advance(s, tx, CycleChecked)
    case Write(tx) =>
      if Creating(s, tx, CycleChecked) || (InPhase(s, tx, Locked) && !s.sessions[tx].request.CreateRelation?)
      then End(s, tx, WriteTables(s.tables, s.sessions[tx].request))
      else s
    case Abort(tx) => End(s, tx, s.tables)
    case AddPerson(person) =>
      if person in s.tables.persons then s
      else s.(tables := s.tables.(persons := s.tables.persons[person := PersonRow(false, 1)]))
    case SoftDeletePerson(person, version) =>
      s.(tables := MutatePerson(s.tables, person, version, true))
  }

  // ---- What every statement keeps ----

  ghost predicate Inv(s: System) {
    && EndpointsExist(s.tables)
    && Acyclic(LiveEdges(s.tables))
    && (forall tx :: tx in s.sessions && s.sessions[tx].phase != Started ==> s.holder == HeldBy(tx))
    && (forall tx {:trigger s.sessions[tx]} :: Creating(s, tx, CycleChecked) ==>
          !Reaches(LiveEdges(s.tables), s.sessions[tx].request.row.child, s.sessions[tx].request.row.parent))
  }

  // A smaller live graph keeps the invariant, whatever the sessions in between had checked.
  lemma ShrinkingKeepsInv(s: System, tables: Tables)
    requires Inv(s) && EndpointsExist(tables) && LiveEdges(tables) <= LiveEdges(s.tables)
    ensures Inv(s.(tables := tables))
  {
    AcyclicSubset(LiveEdges(tables), LiveEdges(s.tables));
    var next := s.(tables := tables);
    forall tx | Creating(next, tx, CycleChecked)
      ensures !Reaches(LiveEdges(tables), next.sessions[tx].request.row.child, next.sessions[tx].request.row.parent)
    {
      assert Creating(s, tx, CycleChecked);
      var row := s.sessions[tx].request.row;
      if Reaches(LiveEdges(tables), row.child, row.parent) {
        ReachesMonotone(LiveEdges(tables), LiveEdges(s.tables), row.child, row.parent);
      }
    }
  }

  lemma EndKeepsInv(s: System, tx: nat)
    requires Inv(s)
    ensures Inv(End(s, tx, s.tables))
  {
    var next := End(s, tx, s.tables);
    forall other | Creating(next, other, CycleChecked)
      ensures !Reaches(LiveEdges(next.tables), next.sessions[other].request.row.child, next.sessions[other].request.row.parent)
    {
      assert Creating(s, other, CycleChecked);
    }
  }

  lemma CycleCheckKeepsInv(s: System, tx: nat)
    requires Inv(s)
    ensures Inv(Apply(s, CheckCycle(tx)))
  {
    if Creating(s, tx, DuplicateChecked) {
      var row := s.sessions[tx].request.row;
      if Reaches(QueryEdges(s.tables), row.child, row.parent) {
        EndKeepsInv(s, tx);
      } else {
        LiveWithinQuery(s.tables);
        if Reaches(LiveEdges(s.tables), row.child, row.parent) {
          ReachesMonotone(LiveEdges(s.tables), QueryEdges(s.tables), row.child, row.parent);
        }
        var next := Advance(s, tx, CycleChecked);
        forall other | Creating(next, other, CycleChecked)
          ensures !Reaches(LiveEdges(next.tables), next.sessions[other].request.row.child, next.sessions[other].request.row.parent)
        {
          if other != tx {
            assert Creating(s, other, CycleChecked);
          }
        }
      }
    }
  }

  lemma RewriteShrinks(t: Tables, request: Request)
    requires EndpointsExist(t) && !request.CreateRelation?
    ensures EndpointsExist(WriteTables(t, request)) && LiveEdges(WriteTables(t, request)) <= LiveEdges(t)
  {
    var next := WriteTables(t, request);
    forall e | e in LiveEdges(next) ensures e in LiveEdges(t) {
      var id :| id in next.relations && Live(next, id) && e == Edge(next.relations[id].parent, next.relations[id].child);
      assert Live(t, id);
    }
  }

  lemma WriteKeepsInv(s: System, tx: nat)
    requires Inv(s)
    ensures Inv(Apply(s, Write(tx)))
  {
    if Creating(s, tx, CycleChecked) {
      var row := s.sessions[tx].request.row;
      var tables := WriteTables(s.tables, s.sessions[tx].request);
      InsertGrowsByOne(s.tables, s.sessions[tx].request.id, row);
      AddEdgeAcyclic(LiveEdges(s.tables), Edge(row.parent, row.child));
      AcyclicSubset(LiveEdges(tables), LiveEdges(s.tables) + {Edge(row.parent, row.child)});
      assert forall other :: other in s.sessions && other != tx ==> s.sessions[other].phase == Started;
    } else if InPhase(s, tx, Locked) && !s.sessions[tx].request.CreateRelation? {
      var tables := WriteTables(s.tables, s.sessions[tx].request);
      RewriteShrinks(s.tables, s.sessions[tx].request);
      ShrinkingKeepsInv(s, tables);
      EndKeepsInv(s.(tables := tables), tx);
    }
  }

  // A step that touches no table and brings nobody past the cycle check.
  lemma OtherPhaseKeepsInv(s: System, next: System)
    requires Inv(s) && next.tables == s.tables
    requires forall tx :: tx in next.sessions && next.sessions[tx].phase != Started ==> next.holder == HeldBy(tx)
    requires forall tx :: Creating(next, tx, CycleChecked) ==> tx in s.sessions && s.sessions[tx] == next.sessions[tx]
    ensures Inv(next)
  {
    forall tx | Creating(next, tx, CycleChecked)
      ensures !Reaches(LiveEdges(next.tables), next.sessions[tx].request.row.child, next.sessions[tx].request.row.parent)
    {
      assert Creating(s, tx, CycleChecked);
    }
  }

  lemma StepKeepsInv(s: System, e: Event)
    requires Inv(s)
    ensures Inv(Apply(s, e))
  {
    match e
    case Begin(tx, request) => OtherPhaseKeepsInv(s, Apply(s, e));
    case AcquireLock(tx) => OtherPhaseKeepsInv(s, Apply(s, e));
    case CheckPersons(tx) => EndKeepsInv(s, tx); OtherPhaseKeepsInv(s, Apply(s, e));
    case CheckDuplicate(tx) => EndKeepsInv(s, tx); OtherPhaseKeepsInv(s, Apply(s, e));
    case CheckCycle(tx) => CycleCheckKeepsInv(s, tx);
    case Write(tx) => WriteKeepsInv(s, tx);
    case Abort(tx) => EndKeepsInv(s, tx);
    case AddPerson(person) =>
      if person !in s.tables.persons {
        AddedPersonIsIsolated(s.tables, person);
        ShrinkingKeepsInv(s, Apply(s, e).tables);
      }
    case SoftDeletePerson(person, version) =>
      DeletedPersonShrinks(s.tables, person, version);
      ShrinkingKeepsInv(s, Apply(s, e).tables);
  }

  ghost function Run(s: System, events: seq<Event>): System {
    if events == [] then s else Apply(Run(s, events[..|events| - 1]), events[|events| - 1])
  }

  const EMPTY := System(Tables(map[], map[]), Nobody, map[])

  // Ancestry among active persons is acyclic after any interleaving of statements.
  lemma {:induction false} AncestryStaysAcyclic(events: seq<Event>)
    ensures Inv(Run(EMPTY, events)) && Acyclic(LiveEdges(Run(EMPTY, events).tables))
  {
    if events == [] {
      assert LiveEdges(EMPTY.tables) == {};
      HeightsMakeAcyclic({}, map[]);
    } else {
      AncestryStaysAcyclic(events[..|events| - 1]);
      StepKeepsInv(Run(EMPTY, events[..|events| - 1]), events[|events| - 1]);
    }
  }

  // ---- The repository, statement by statement ----

  datatype CreateResult = Created | PersonsNotFound | Duplicate | WouldCycle | WriteFailed

  lemma CountsBoth(t: Tables, row: RelationRow)
    ensures |set p | p in {row.parent, row.child} && Active(t, p)| == 2 <==> BothActive(t, row)
  {
    var active := set p | p in {row.parent, row.child} && Active(t, p);
    if BothActive(t, row) {
      assert active == {row.parent, row.child};
    } else if !Active(t, row.parent) {
      assert active <= {row.child};
      assert active == {row.child} || active == {};
    } else {
      assert active <= {row.parent};
      assert active == {row.parent} || active == {};
    }
  }

  // The system while tx alone is at work.
  ghost function During(s: System, tx: nat, request: Request, phase: Phase): System {
    System(s.tables, HeldBy(tx), s.sessions[tx := Session(request, phase)])
  }

  lemma UndisturbedSteps(s: System, tx: nat, request: Request)
    requires tx !in s.sessions && s.holder == Nobody && request.CreateRelation?
    ensures Apply(Apply(s, Begin(tx, request)), AcquireLock(tx)) == During(s, tx, request, Locked)
    ensures forall phase, tables :: End(During(s, tx, request, phase), tx, tables) == s.(tables := tables)
    ensures Apply(During(s, tx, request, Locked), CheckPersons(tx)) ==
      if BothActive(s.tables, request.row) then During(s, tx, request, PersonsChecked) else s
    ensures Apply(During(s, tx, request, PersonsChecked), CheckDuplicate(tx)) ==
      if HasActiveTwin(s.tables, request.row) then s else During(s, tx, request, DuplicateChecked)
    ensures Apply(During(s, tx, request, DuplicateChecked), CheckCycle(tx)) ==
      if Reaches(QueryEdges(s.tables), request.row.child, request.row.parent) then s else During(s, tx, request, CycleChecked)
    ensures Apply(During(s, tx, request, CycleChecked), Write(tx)) == s.(tables := WriteTables(s.tables, request))
  {
    forall phase, tables ensures End(During(s, tx, request, phase), tx, tables) == s.(tables := tables) {
      assert s.sessions[tx := Session(request, phase)] - {tx} == s.sessions;
    }
  }

  lemma CreationKeepsInv(s: System, id: Uuid, row: RelationRow)
    requires Inv(s) && s.holder == Nobody && Acyclic(LiveEdges(s.tables) + {Edge(row.parent, row.child)})
    ensures Inv(s.(tables := WriteTables(s.tables, CreateRelation(id, row))))
  {
    InsertGrowsByOne(s.tables, id, row);
    AcyclicSubset(LiveEdges(WriteTables(s.tables, CreateRelation(id, row))),
                  LiveEdges(s.tables) + {Edge(row.parent, row.child)});
  }

  class RelationRepository {
    var tables: Tables
    var holder: LockHolder
    var sessions: map<nat, Session>

    ghost function State(): System
      reads this
    {
      System(tables, holder, sessions)
    }

    constructor ()
      ensures State() == EMPTY
    {
      tables, holder, sessions := Tables(map[], map[]), Nobody, map[];
    }

    method BeginTransaction(tx: nat, request: Request)
      modifies this
      ensures State() == Apply(old(State()), Begin(tx, request))
    {
      if tx !in sessions {
        sessions := sessions[tx := Session(request, Started)];
      }
    }

    // Blocks while another transaction holds the tree.
    method LockTreeGraph(tx: nat) returns (acquired: bool)
      modifies this
      ensures State() == Apply(old(State()), AcquireLock(tx))
      ensures acquired <==> old(tx in sessions && sessions[tx].phase == Started && holder == Nobody)
    {
      acquired := tx in sessions && sessions[tx].phase == Started && holder == Nobody;
      if acquired {
        sessions := sessions[tx := sessions[tx].(phase := Locked)];
        holder := HeldBy(tx);
      }
    }

    method EndTransaction(tx: nat)
      modifies this
      ensures State() == Apply(old(State()), Abort(tx))
    {
      if holder == HeldBy(tx) {
        holder := Nobody;
      }
      sessions := sessions - {tx};
    }

    method RequireActivePersons(tx: nat) returns (passed: bool)
      requires tx in sessions && sessions[tx] == Session(sessions[tx].request, Locked) && sessions[tx].request.CreateRelation?
      modifies this
      ensures State() == Apply(old(State()), CheckPersons(tx))
      ensures passed <==> old(BothActive(tables, sessions[tx].request.row))
    {
      var row := sessions[tx].request.row;
      var count := |set p | p in {row.parent, row.child} && Active(tables, p)|;
      CountsBoth(tables, row);
      passed := count == 2;
      if passed {
        sessions := sessions[tx := sessions[tx].(phase := PersonsChecked)];
      } else {
        EndTransaction(tx);
      }
    }

    method RequireNoDuplicate(tx: nat) returns (passed: bool)
      requires tx in sessions && sessions[tx] == Session(sessions[tx].request, PersonsChecked)
      requires sessions[tx].request.CreateRelation?
      modifies this
      ensures State() == Apply(old(State()), CheckDuplicate(tx))
      ensures passed <==> old(!HasActiveTwin(tables, sessions[tx].request.row))
    {
      passed := !HasActiveTwin(tables, sessions[tx].request.row);
      if passed {
        sessions := sessions[tx := sessions[tx].(phase := DuplicateChecked)];
      } else {
        EndTransaction(tx);
      }
    }

    method RequireNoCycle(tx: nat) returns (passed: bool)
      requires tx in sessions && sessions[tx] == Session(sessions[tx].request, DuplicateChecked)
      requires sessions[tx].request.CreateRelation?
      modifies this
      ensures State() == Apply(old(State()), CheckCycle(tx))
      ensures passed <==>
        old(!Reaches(QueryEdges(tables), sessions[tx].request.row.child, sessions[tx].request.row.parent))
    {
      var row := sessions[tx].request.row;
      var createsCycle := CreatesCycle(tables, row.parent, row.child);
      passed := !createsCycle;
      if passed {
        sessions := sessions[tx := sessions[tx].(phase := CycleChecked)];
      } else {
        EndTransaction(tx);
      }
    }

    // The write, and the commit that publishes it; a violated constraint rolls back.
    method WriteAndCommit(tx: nat) returns (changed: bool)
      requires tx in sessions
      requires sessions[tx].phase == if sessions[tx].request.CreateRelation? then CycleChecked else Locked
      modifies this
      ensures State() == Apply(old(State()), Write(tx))
      ensures changed <==> tables != old(tables)
    {
      var next := WriteTables(tables, sessions[tx].request);
      changed := next != tables;
      tables := next;
      EndTransaction(tx);
    }

    // The whole creation, when nothing else runs in between.
    method CreateAcyclicEditable(tx: nat, id: Uuid, row: RelationRow) returns (result: CreateResult)
      requires tx !in sessions && holder == Nobody && Inv(State()) && !row.deleted
      modifies this
      ensures Inv(State()) && holder == Nobody && sessions == old(sessions)
      ensures result == PersonsNotFound <==> old(!BothActive(tables, row))
      ensures result == Duplicate <==> old(BothActive(tables, row) && HasActiveTwin(tables, row))
      ensures result == WouldCycle <==>
        old(BothActive(tables, row) && !HasActiveTwin(tables, row) && !Acyclic(LiveEdges(tables) + {Edge(row.parent, row.child)}))
      ensures result == WriteFailed ==> old(id in tables.relations)
      ensures tables == if result == Created then old(tables).(relations := old(tables).relations[id := row]) else old(tables)
    {
      ghost var before := State();
      var request := CreateRelation(id, row);
      UndisturbedSteps(before, tx, request);
      BeginTransaction(tx, request);
      var acquired := LockTreeGraph(tx);
      assert State() == During(before, tx, request, Locked);
      var passed := RequireActivePersons(tx);
      if !passed {
        return PersonsNotFound;
      }
      assert State() == During(before, tx, request, PersonsChecked);
      passed := RequireNoDuplicate(tx);
      if !passed {
        return Duplicate;
      }
      assert State() == During(before, tx, request, DuplicateChecked);
      RefusalIsExact(tables, row.parent, row.child);
      passed := RequireNoCycle(tx);
      if !passed {
        return WouldCycle;
      }
      assert State() == During(before, tx, request, CycleChecked);
      CreationKeepsInv(before, id, row);
      var changed := WriteAndCommit(tx);
      result := if changed then Created else WriteFailed;
    }
  }
}
