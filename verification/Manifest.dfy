/** The parts of a tree snapshot that the exporters and the restorer read. */
module Manifest {
  import opened Graphs

  datatype Person = Person(id: Uuid, sex: string, deleted: bool)

  datatype Relation = Relation(id: Uuid, parent: Uuid, child: Uuid, relationType: string, deleted: bool)

  datatype Union = Union(id: Uuid, deleted: bool)

  datatype UnionMember = UnionMember(unionId: Uuid, personId: Uuid, role: string)

  // Relations that count for a graph over `persons`.
  ghost predicate ActiveIn(r: Relation, persons: set<Uuid>) {
    !r.deleted && r.parent in persons && r.child in persons
  }

  ghost function ActiveEdges(relations: seq<Relation>, persons: set<Uuid>): set<Edge> {
    set r | r in relations && ActiveIn(r, persons) :: Edge(r.parent, r.child)
  }

  lemma ActiveEdgesStep(relations: seq<Relation>, persons: set<Uuid>, i: nat)
    requires i < |relations|
    ensures ActiveEdges(relations[..i + 1], persons) ==
            ActiveEdges(relations[..i], persons) +
            (if ActiveIn(relations[i], persons) then {Edge(relations[i].parent, relations[i].child)} else {})
  {
    assert relations[..i + 1] == relations[..i] + [relations[i]];
  }
}
