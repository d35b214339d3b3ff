/** Which trees have a backup that the restorer's relation check accepts. */
module TreeBackup {
  import opened Graphs
  import opened Ordering
  import opened AncestryTables
  import opened Ancestry
  import opened PersonRestore
  import Manifest
  import opened ManifestRelations

  function RowOf(t: Tables, id: Uuid): Manifest.Relation
    requires id in t.relations
  {
    var row := t.relations[id];
    Manifest.Relation(id, row.parent, row.child, row.relationType, row.deleted)
  }

  // The manifest rows of a tree: all persons and all relations once each, deleted ones included.
  ghost predicate Describes(persons: seq<Uuid>, relations: seq<Manifest.Relation>, t: Tables) {
    && Distinct(persons) && (forall i, j :: 0 <= i < j < |relations| ==> relations[i].id != relations[j].id)
    && (forall p :: p in persons <==> p in t.persons)
    && (forall r :: r in relations <==> r.id in t.relations && r == RowOf(t, r.id))
  }

  ghost predicate NoNilIds(t: Tables) {
    0 !in t.persons && 0 !in t.relations
  }

  // The relations the restorer follows: whether their persons are deleted does not matter to it.
  ghost function UndeletedEdges(t: Tables): set<Edge> {
    set id | id in t.relations && !t.relations[id].deleted :: Edge(t.relations[id].parent, t.relations[id].child)
  }

  lemma DescribedEdges(persons: seq<Uuid>, relations: seq<Manifest.Relation>, t: Tables)
    requires Describes(persons, relations, t) && EndpointsExist(t)
    ensures Manifest.ActiveEdges(relations, IdsOf(persons)) == UndeletedEdges(t)
  {
    var edges := Manifest.ActiveEdges(relations, IdsOf(persons));
    forall e | e in UndeletedEdges(t) ensures e in edges {
      var id :| id in t.relations && !t.relations[id].deleted && e == Edge(t.relations[id].parent, t.relations[id].child);
      assert RowOf(t, id) in relations && Manifest.ActiveIn(RowOf(t, id), IdsOf(persons));
    }
    forall e | e in edges ensures e in UndeletedEdges(t) {
      var r :| r in relations && Manifest.ActiveIn(r, IdsOf(persons)) && e == Edge(r.parent, r.child);
    }
  }

  lemma DescribedIsWellFormed(persons: seq<Uuid>, relations: seq<Manifest.Relation>, t: Tables)
    requires Describes(persons, relations, t) && RowsInv(t) && NoNilIds(t)
    ensures PersonsValid(persons) && RelationsWellFormed(IdsOf(persons), relations)
  {
    forall i, j | 0 <= i < j < |relations| ensures !SameActiveKey(relations[i], relations[j]) {
      assert relations[i] in relations && relations[j] in relations;
    }
  }

  // After any history, restores included: the restorer accepts the persons and relations of the tree's backup exactly
  // when its undeleted relations contain no cycle, relations of deleted persons included. It refuses them for a cycle
  // and for nothing else.
  lemma BackupAcceptedIff(changes: seq<Change>, persons: seq<Uuid>, relations: seq<Manifest.Relation>)
    requires Describes(persons, relations, History(changes).tables) && NoNilIds(History(changes).tables)
    ensures Restorable(persons, relations) <==> Acyclic(UndeletedEdges(History(changes).tables))
    ensures RefusedForCycle(persons, relations) <==> !Acyclic(UndeletedEdges(History(changes).tables))
  {
    var t := History(changes).tables;
    HistoryKeepsRows(changes);
    DescribedEdges(persons, relations, t);
    DescribedIsWellFormed(persons, relations, t);
  }

  // No undeleted relation touches a deleted person.
  ghost predicate UndeletedAreLive(t: Tables) {
    forall id :: id in t.relations && !t.relations[id].deleted ==> Live(t, id)
  }

  lemma UndeletedWithinLive(t: Tables)
    requires UndeletedAreLive(t)
    ensures UndeletedEdges(t) <= LiveEdges(t)
  {
    forall e | e in UndeletedEdges(t) ensures e in LiveEdges(t) {
      var id :| id in t.relations && !t.relations[id].deleted && e == Edge(t.relations[id].parent, t.relations[id].child);
      assert Live(t, id);
    }
  }

  // Where no undeleted relation touches a deleted person, the restorer sees what users see: after harmless restores
  // such a tree has an acceptable backup.
  lemma SafeTreeHasBackup(changes: seq<Change>, persons: seq<Uuid>, relations: seq<Manifest.Relation>)
    requires Describes(persons, relations, History(changes).tables) && NoNilIds(History(changes).tables)
    requires forall n :: 0 <= n < |changes| ==> HarmlessAt(changes, n)
    requires UndeletedAreLive(History(changes).tables)
    ensures Restorable(persons, relations)
  {
    var t := History(changes).tables;
    SafeIffRestoresHarmless(changes, |changes|);
    assert SafeAfter(changes, |changes|) && changes[..|changes|] == changes;
    UndeletedWithinLive(t);
    AcyclicSubset(UndeletedEdges(t), LiveEdges(t));
    BackupAcceptedIff(changes, persons, relations);
  }

  // The check run on the rows of such a tree answers one of two things.
  method CheckBackup(persons: seq<Uuid>, relations: seq<Manifest.Relation>, ghost changes: seq<Change>) returns (result: Check)
    requires Describes(persons, relations, History(changes).tables) && NoNilIds(History(changes).tables)
    ensures result == if Acyclic(UndeletedEdges(History(changes).tables)) then Valid else Cycle
  {
    BackupAcceptedIff(changes, persons, relations);
    result := ValidateManifestRelations(persons, relations);
  }
}
