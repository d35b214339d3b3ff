/** Runs in which restores and backups go wrong. */
module RestoreWitnesses {
  import opened Graphs
  import opened AncestryTables
  import opened Ancestry
  import opened PersonRestore
  import Manifest
  import ManifestRelations
  import opened TreeBackup

  // ---- A run in which it goes wrong ----

  const GRANDPARENT: Uuid := 1
  const PARENT: Uuid := 2
  const CHILD: Uuid := 3

  function Row(parent: Uuid, child: Uuid): RelationRow {
    RelationRow(parent, child, "biological", false, 1)
  }

  // Every statement of one creation, undisturbed.
  function CreationEvents(tx: nat, id: Uuid, row: RelationRow): seq<Event> {
    [Begin(tx, CreateRelation(id, row)), AcquireLock(tx), CheckPersons(tx), CheckDuplicate(tx), CheckCycle(tx), Write(tx)]
  }

  lemma {:induction false} RunConcat(s: System, a: seq<Event>, b: seq<Event>)
    ensures Run(s, a + b) == Run(Run(s, a), b)
  {
    if b == [] {
      assert a + b == a;
    } else {
      assert (a + b)[..|a + b| - 1] == a + b[..|b| - 1];
      RunConcat(s, a, b[..|b| - 1]);
    }
  }

  lemma RunOne(s: System, e: Event)
    ensures Run(s, [e]) == Apply(s, e)
  {
    assert [e][..0] == [];
  }

  lemma RunSnoc(s: System, events: seq<Event>, e: Event)
    ensures Run(s, events + [e]) == Apply(Run(s, events), e)
  {
    assert (events + [e])[..|events|] == events;
  }

  lemma CreationRuns(s: System, tx: nat, id: Uuid, row: RelationRow)
    requires s.holder == Nobody && tx !in s.sessions && BothActive(s.tables, row) && Insertable(s.tables, id, row)
    requires !Reaches(QueryEdges(s.tables), row.child, row.parent)
    ensures Run(s, CreationEvents(tx, id, row)) == s.(tables := s.tables.(relations := s.tables.relations[id := row]))
  {
    UndisturbedSteps(s, tx, CreateRelation(id, row));
    var e := CreationEvents(tx, id, row);
    RunOne(s, e[0]);
    forall k | 1 <= k < 6 ensures Run(s, e[..k + 1]) == Apply(Run(s, e[..k]), e[k]) {
      RunSnoc(s, e[..k], e[k]);
      assert e[..k + 1] == e[..k] + [e[k]];
    }
    assert e[..1] == [e[0]] && e[..6] == e;
    assert Run(s, e[..2]) == During(s, tx, CreateRelation(id, row), Locked);
    assert Run(s, e[..3]) == During(s, tx, CreateRelation(id, row), PersonsChecked);
    assert Run(s, e[..4]) == During(s, tx, CreateRelation(id, row), DuplicateChecked);
    assert Run(s, e[..5]) == During(s, tx, CreateRelation(id, row), CycleChecked);
  }

  lemma {:induction false} NothingLeaves(edges: set<Edge>, a: Uuid, b: Uuid)
    requires a != b && forall e :: e in edges ==> e.parent != a
    ensures !Reaches(edges, a, b)
  {
    forall w ensures !WalkFromTo(edges, w, a, b) {
      if |w| > 1 && w[0] == a {
        assert Edge(w[0], w[1]) !in edges;
      }
    }
  }

  // A grandparent, a parent and a child, and the parent deleted.
  function FamilyRun(): seq<Event> {
    [AddPerson(GRANDPARENT), AddPerson(PARENT), AddPerson(CHILD)]
    + CreationEvents(1, 11, Row(GRANDPARENT, PARENT))
    + CreationEvents(2, 12, Row(PARENT, CHILD))
    + [SoftDeletePerson(PARENT, 1)]
  }

  function WitnessRun(): seq<Event> {
    FamilyRun() + CreationEvents(3, 13, Row(CHILD, GRANDPARENT))
  }

  const THREE: map<Uuid, PersonRow> := map[GRANDPARENT := PersonRow(false, 1), PARENT := PersonRow(false, 1), CHILD := PersonRow(false, 1)]

  function WitnessTables(): Tables {
    Tables(THREE[PARENT := PersonRow(true, 2)],
           map[11 := Row(GRANDPARENT, PARENT), 12 := Row(PARENT, CHILD), 13 := Row(CHILD, GRANDPARENT)])
  }

  function FamilyTables(): Tables {
    Tables(THREE[PARENT := PersonRow(true, 2)], map[11 := Row(GRANDPARENT, PARENT), 12 := Row(PARENT, CHILD)])
  }

  lemma PeopleReached()
    ensures Run(EMPTY, [AddPerson(GRANDPARENT), AddPerson(PARENT), AddPerson(CHILD)]) == System(Tables(THREE, map[]), Nobody, map[])
  {
    var people := [AddPerson(GRANDPARENT), AddPerson(PARENT), AddPerson(CHILD)];
    RunOne(EMPTY, people[0]);
    RunSnoc(EMPTY, people[..1], people[1]);
    RunSnoc(EMPTY, people[..2], people[2]);
    assert people[..1] == [people[0]] && people[..2] == people[..1] + [people[1]] && people == people[..2] + [people[2]];
  }

  lemma FamilyReached()
    ensures Run(EMPTY, FamilyRun()) == System(FamilyTables(), Nobody, map[])
  {
    var people := [AddPerson(GRANDPARENT), AddPerson(PARENT), AddPerson(CHILD)];
    var first := CreationEvents(1, 11, Row(GRANDPARENT, PARENT));
    var second := CreationEvents(2, 12, Row(PARENT, CHILD));
    var removal := [SoftDeletePerson(PARENT, 1)];
    PeopleReached();
    RunConcat(EMPTY, people + first + second, removal);
    RunConcat(EMPTY, people + first, second);
    RunConcat(EMPTY, people, first);
    var s0 := System(Tables(THREE, map[]), Nobody, map[]);
    NothingLeaves(QueryEdges(s0.tables), PARENT, GRANDPARENT);
    CreationRuns(s0, 1, 11, Row(GRANDPARENT, PARENT));
    var s1 := System(Tables(THREE, map[11 := Row(GRANDPARENT, PARENT)]), Nobody, map[]);
    NothingLeaves(QueryEdges(s1.tables), CHILD, PARENT);
    CreationRuns(s1, 2, 12, Row(PARENT, CHILD));
    var s2 := System(Tables(THREE, map[11 := Row(GRANDPARENT, PARENT), 12 := Row(PARENT, CHILD)]), Nobody, map[]);
    RunOne(s2, removal[0]);
  }

  lemma WitnessReached()
    ensures Run(EMPTY, WitnessRun()) == System(WitnessTables(), Nobody, map[])
  {
    FamilyReached();
    RunConcat(EMPTY, FamilyRun(), CreationEvents(3, 13, Row(CHILD, GRANDPARENT)));
    var s := System(FamilyTables(), Nobody, map[]);
    NothingLeaves(QueryEdges(s.tables), GRANDPARENT, CHILD);
    CreationRuns(s, 3, 13, Row(CHILD, GRANDPARENT));
  }

  // A reachable tree whose visible ancestry is acyclic until a person is restored into it.
  lemma RestoreCanCloseCycle()
    ensures Run(EMPTY, WitnessRun()).tables == WitnessTables() && Acyclic(LiveEdges(WitnessTables()))
    ensures !Acyclic(LiveEdges(MutatePerson(WitnessTables(), PARENT, 2, false)))
  {
    WitnessReached();
    AncestryStaysAcyclic(WitnessRun());
    var t := MutatePerson(WitnessTables(), PARENT, 2, false);
    assert Live(t, 11) && Live(t, 12) && Live(t, 13);
    assert Edge(GRANDPARENT, PARENT) in LiveEdges(t) && Edge(PARENT, CHILD) in LiveEdges(t) && Edge(CHILD, GRANDPARENT) in LiveEdges(t);
    assert IsCycle(LiveEdges(t), [GRANDPARENT, PARENT, CHILD, GRANDPARENT]);
  }

  // ---- A restore between the check and the write of a creation ----

  const PENDING := CreateRelation(13, Row(CHILD, GRANDPARENT))

  function ChecksEvents(tx: nat, request: Request): seq<Event> {
    [Begin(tx, request), AcquireLock(tx), CheckPersons(tx), CheckDuplicate(tx), CheckCycle(tx)]
  }

  lemma ChecksRun(s: System, tx: nat, request: Request)
    requires s.holder == Nobody && tx !in s.sessions && request.CreateRelation? && BothActive(s.tables, request.row)
    requires !HasActiveTwin(s.tables, request.row) && !Reaches(QueryEdges(s.tables), request.row.child, request.row.parent)
    ensures Run(s, ChecksEvents(tx, request)) == During(s, tx, request, CycleChecked)
  {
    UndisturbedSteps(s, tx, request);
    var e := ChecksEvents(tx, request);
    RunOne(s, e[0]);
    forall k | 1 <= k < 5 ensures Run(s, e[..k + 1]) == Apply(Run(s, e[..k]), e[k]) {
      RunSnoc(s, e[..k], e[k]);
      assert e[..k + 1] == e[..k] + [e[k]];
    }
    assert e[..1] == [e[0]] && e[..5] == e;
    assert Run(s, e[..2]) == During(s, tx, request, Locked);
    assert Run(s, e[..3]) == During(s, tx, request, PersonsChecked);
    assert Run(s, e[..4]) == During(s, tx, request, DuplicateChecked);
  }

  // The family with the creation of a relation from the child to the grandparent between its check and its write.
  function RaceSystem(): System {
    System(FamilyTables(), HeldBy(3), map[3 := Session(PENDING, CycleChecked)])
  }

  lemma RaceReached()
    ensures Run(EMPTY, FamilyRun() + ChecksEvents(3, PENDING)) == RaceSystem() && Inv(RaceSystem())
  {
    FamilyReached();
    var t := System(FamilyTables(), Nobody, map[]);
    NothingLeaves(QueryEdges(t.tables), GRANDPARENT, CHILD);
    ChecksRun(t, 3, PENDING);
    RunConcat(EMPTY, FamilyRun(), ChecksEvents(3, PENDING));
    AncestryStaysAcyclic(FamilyRun() + ChecksEvents(3, PENDING));
  }

  lemma RaceIsHarmful()
    ensures !Harmless(RaceSystem(), PARENT, 2)
  {
    var s := RaceSystem();
    assert s.tables.relations[11] == Row(GRANDPARENT, PARENT) && s.tables.relations[12] == Row(PARENT, CHILD);
    assert GRANDPARENT in ActiveParents(s.tables, PARENT) && CHILD in ActiveChildren(s.tables, PARENT);
    assert Creating(s, 3, CycleChecked);
    assert Edge(CHILD, GRANDPARENT) in PlannedWithout(s, PARENT);
    assert WalkFromTo(PlannedWithout(s, PARENT), [CHILD, GRANDPARENT], CHILD, GRANDPARENT);
    assert Reaches(PlannedWithout(s, PARENT), CHILD, GRANDPARENT);
  }

  lemma RaceLooksHarmless()
    ensures var t := FamilyTables();
      forall q, c :: q in ActiveParents(t, PARENT) && c in ActiveChildren(t, PARENT) ==> !Reaches(LiveEdges(t), c, q)
    ensures Acyclic(LiveEdges(MutatePerson(FamilyTables(), PARENT, 2, false)))
  {
    var t := FamilyTables();
    assert LiveEdges(t) == {};
    HeightsMakeAcyclic({}, map[]);
    NothingLeaves(LiveEdges(t), CHILD, GRANDPARENT);
    RestoreKeepsAcyclicIff(t, PARENT, 2);
  }

  lemma RaceCanWrite()
    ensures CanWrite(Restored(RaceSystem(), PARENT, 2), 3)
  {
  }

  // The parent comes back at that moment. No active child of the parent reaches an active parent of it, and ancestry
  // is still acyclic after the restore; but the write closes a cycle.
  lemma RestoreRacesWithCreation()
    ensures Run(EMPTY, FamilyRun() + ChecksEvents(3, PENDING)) == RaceSystem()
    ensures var t := FamilyTables();
      forall q, c :: q in ActiveParents(t, PARENT) && c in ActiveChildren(t, PARENT) ==> !Reaches(LiveEdges(t), c, q)
    ensures Acyclic(LiveEdges(Restored(RaceSystem(), PARENT, 2).tables))
    ensures !Acyclic(LiveEdges(Apply(Restored(RaceSystem(), PARENT, 2), Write(3)).tables))
  {
    RaceReached();
    RaceLooksHarmless();
    RaceIsHarmful();
    HarmfulRestoreClosesCycle(RaceSystem(), PARENT, 2);
    RaceCanWrite();
  }

  // ---- A backup that cannot be restored ----

  function Statements(events: seq<Event>): seq<Change> {
    seq(|events|, i requires 0 <= i < |events| => Statement(events[i]))
  }

  lemma {:induction false} StatementsRun(events: seq<Event>)
    ensures History(Statements(events)) == Run(EMPTY, events)
  {
    if events != [] {
      StatementsRun(events[..|events| - 1]);
      assert Statements(events)[..|events| - 1] == Statements(events[..|events| - 1]);
    }
  }

  // The check that a restore makes also follows relations of deleted persons: it refuses the backup of such a tree as
  // cyclic, although nobody has restored anybody and the visible ancestry is acyclic.
  lemma BackupOfReachableTreeRefused(persons: seq<Uuid>, relations: seq<Manifest.Relation>)
    requires Describes(persons, relations, WitnessTables())
    ensures Run(EMPTY, WitnessRun()).tables == WitnessTables() && Acyclic(LiveEdges(WitnessTables()))
    ensures ManifestRelations.RefusedForCycle(persons, relations)
  {
    RestoreCanCloseCycle();
    var t := WitnessTables();
    assert t.relations[11] == Row(GRANDPARENT, PARENT) && t.relations[12] == Row(PARENT, CHILD) && t.relations[13] == Row(CHILD, GRANDPARENT);
    assert Edge(GRANDPARENT, PARENT) in UndeletedEdges(t) && Edge(PARENT, CHILD) in UndeletedEdges(t)
      && Edge(CHILD, GRANDPARENT) in UndeletedEdges(t);
    assert IsCycle(UndeletedEdges(t), [GRANDPARENT, PARENT, CHILD, GRANDPARENT]);
    StatementsRun(WitnessRun());
    BackupAcceptedIff(Statements(WitnessRun()), persons, relations);
  }

  // Such rows exist.
  lemma WitnessHasManifest()
    ensures Describes([GRANDPARENT, PARENT, CHILD],
      [RowOf(WitnessTables(), 11), RowOf(WitnessTables(), 12), RowOf(WitnessTables(), 13)], WitnessTables())
  {
    var relations := [RowOf(WitnessTables(), 11), RowOf(WitnessTables(), 12), RowOf(WitnessTables(), 13)];
    assert relations[0] in relations && relations[1] in relations && relations[2] in relations;
  }
}
