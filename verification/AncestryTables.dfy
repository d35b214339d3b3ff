/** The person and relation rows of one tree, and the graphs they stand for. */
module AncestryTables {
  import opened Graphs

  datatype PersonRow = PersonRow(deleted: bool, version: int)

  datatype RelationRow = RelationRow(parent: Uuid, child: Uuid, relationType: string, deleted: bool, version: int)

  datatype Tables = Tables(persons: map<Uuid, PersonRow>, relations: map<Uuid, RelationRow>)

  predicate Active(t: Tables, p: Uuid) {
    p in t.persons && !t.persons[p].deleted
  }

  predicate Live(t: Tables, id: Uuid) {
    id in t.relations && !t.relations[id].deleted && Active(t, t.relations[id].parent) && Active(t, t.relations[id].child)
  }

  // The ancestry that users see: active relations between active persons.
  ghost function LiveEdges(t: Tables): set<Edge> {
    set id | id in t.relations && Live(t, id) :: Edge(t.relations[id].parent, t.relations[id].child)
  }

  // What the cycle query joins: active relations into active children.
  predicate Joinable(t: Tables, id: Uuid) {
    id in t.relations && !t.relations[id].deleted && Active(t, t.relations[id].child)
  }

  ghost function QueryEdges(t: Tables): set<Edge> {
    set id | id in t.relations && Joinable(t, id) :: Edge(t.relations[id].parent, t.relations[id].child)
  }

  // Foreign keys.
  ghost predicate EndpointsExist(t: Tables) {
    forall id :: id in t.relations ==> t.relations[id].parent in t.persons && t.relations[id].child in t.persons
  }

  // Both persons are counted among the active ones; a person paired with itself counts once.
  predicate BothActive(t: Tables, row: RelationRow) {
    row.parent != row.child && Active(t, row.parent) && Active(t, row.child)
  }

  predicate HasActiveTwin(t: Tables, row: RelationRow) {
    exists id :: id in t.relations && !t.relations[id].deleted && t.relations[id].parent == row.parent &&
      t.relations[id].child == row.child && t.relations[id].relationType == row.relationType
  }

  // The insert meets the primary key, the foreign keys, the self check and the unique index.
  predicate Insertable(t: Tables, id: Uuid, row: RelationRow) {
    id !in t.relations && row.parent in t.persons && row.child in t.persons && row.parent != row.child &&
    !HasActiveTwin(t, row)
  }

  predicate Updatable(t: Tables, id: Uuid, relationType: string, version: int) {
    Live(t, id) && t.relations[id].version == version - 1 &&
    (t.relations[id].relationType == relationType || !HasActiveTwin(t, t.relations[id].(relationType := relationType)))
  }

  function MutatePerson(t: Tables, person: Uuid, version: int, deleted: bool): Tables {
    if person in t.persons && t.persons[person].version == version && t.persons[person].deleted == !deleted
    then t.(persons := t.persons[person := PersonRow(deleted, version + 1)])
    else t
  }

  lemma ReachesMonotone(small: set<Edge>, large: set<Edge>, a: Uuid, b: Uuid)
    requires small <= large && Reaches(small, a, b)
    ensures Reaches(large, a, b)
  {
    var w :| WalkFromTo(small, w, a, b);
    WalkSubset(small, large, w);
    assert WalkFromTo(large, w, a, b);
  }

  lemma LiveWithinQuery(t: Tables)
    ensures LiveEdges(t) <= QueryEdges(t)
  {
    forall e | e in LiveEdges(t) ensures e in QueryEdges(t) {
      var id :| id in t.relations && Live(t, id) && e == Edge(t.relations[id].parent, t.relations[id].child);
      assert Joinable(t, id);
    }
  }

  lemma InsertGrowsByOne(t: Tables, id: Uuid, row: RelationRow)
    requires EndpointsExist(t)
    ensures var next := if Insertable(t, id, row) then t.(relations := t.relations[id := row]) else t;
      EndpointsExist(next) && LiveEdges(next) <= LiveEdges(t) + {Edge(row.parent, row.child)}
  {
    var next := if Insertable(t, id, row) then t.(relations := t.relations[id := row]) else t;
    forall e | e in LiveEdges(next) ensures e in LiveEdges(t) + {Edge(row.parent, row.child)} {
      var k :| k in next.relations && Live(next, k) && e == Edge(next.relations[k].parent, next.relations[k].child);
      if k in t.relations && next.relations[k] == t.relations[k] {
        assert Live(t, k);
      }
    }
  }

  lemma AddedPersonIsIsolated(t: Tables, person: Uuid)
    requires EndpointsExist(t) && person !in t.persons
    ensures var next := t.(persons := t.persons[person := PersonRow(false, 1)]);
      EndpointsExist(next) && LiveEdges(next) <= LiveEdges(t)
  {
    var next := t.(persons := t.persons[person := PersonRow(false, 1)]);
    forall e | e in LiveEdges(next) ensures e in LiveEdges(t) {
      var k :| k in next.relations && Live(next, k) && e == Edge(next.relations[k].parent, next.relations[k].child);
      assert Live(t, k);
    }
  }

  lemma DeletedPersonShrinks(t: Tables, person: Uuid, version: int)
    requires EndpointsExist(t)
    ensures EndpointsExist(MutatePerson(t, person, version, true))
    ensures LiveEdges(MutatePerson(t, person, version, true)) <= LiveEdges(t)
  {
    var next := MutatePerson(t, person, version, true);
    forall e | e in LiveEdges(next) ensures e in LiveEdges(t) {
      var k :| k in next.relations && Live(next, k) && e == Edge(next.relations[k].parent, next.relations[k].child);
      assert Live(t, k);
    }
  }
}
