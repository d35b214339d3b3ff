/** The restorer's check of a backup's persons and parent-child relations. */
module ManifestRelations {
  import opened Graphs
  import opened AdjacencyLists
  import opened TopologicalPass
  import opened Ordering
  import opened Manifest

  datatype Check = Valid | EmptyPersonId | DuplicatePerson | InvalidIdentity | DuplicateRelation
                 | UnknownParent | UnknownChild | DuplicateActiveRelation | Cycle

  ghost function IdsOf(persons: seq<Uuid>): set<Uuid> {
    set p | p in persons
  }

  ghost predicate PersonsValid(persons: seq<Uuid>) {
    Distinct(persons) && forall p :: p in persons ==> p != 0
  }

  ghost predicate SameActiveKey(a: Relation, b: Relation) {
    !a.deleted && !b.deleted && a.parent == b.parent && a.child == b.child && a.relationType == b.relationType
  }

  ghost predicate RelationsWellFormed(persons: set<Uuid>, relations: seq<Relation>) {
    && (forall r :: r in relations ==> r.id != 0 && r.parent != r.child && r.parent in persons && r.child in persons)
    && (forall i, j :: 0 <= i < j < |relations| ==>
          relations[i].id != relations[j].id && !SameActiveKey(relations[i], relations[j]))
  }

  // What a restorable family graph is. A relation between soft-deleted persons counts like any other.
  ghost predicate Restorable(persons: seq<Uuid>, relations: seq<Relation>) {
    && PersonsValid(persons)
    && RelationsWellFormed(IdsOf(persons), relations)
    && Acyclic(ActiveEdges(relations, IdsOf(persons)))
  }

  // Nothing is wrong but a cycle.
  ghost predicate RefusedForCycle(persons: seq<Uuid>, relations: seq<Relation>) {
    && PersonsValid(persons)
    && RelationsWellFormed(IdsOf(persons), relations)
    && !Acyclic(ActiveEdges(relations, IdsOf(persons)))
  }

  method CheckPersons(persons: seq<Uuid>) returns (result: Check, known: set<Uuid>)
    ensures result == Valid <==> PersonsValid(persons)
    ensures result == Valid ==> known == IdsOf(persons)
    ensures result in {Valid, EmptyPersonId, DuplicatePerson}
  {
    known := {};
    for i := 0 to |persons|
      invariant known == IdsOf(persons[..i])
      invariant PersonsValid(persons[..i])
    {
      assert persons[..i + 1] == persons[..i] + [persons[i]];
      assert persons[i] in persons;
      if persons[i] == 0 {
        return EmptyPersonId, known;
      }
      if persons[i] in known {
        ghost var j :| 0 <= j < i && persons[j] == persons[i];
        return DuplicatePerson, known;
      }
      known := known + {persons[i]};
    }
    assert persons[..|persons|] == persons;
    result := Valid;
  }

  ghost function UsedIds(relations: seq<Relation>): set<Uuid> {
    set r | r in relations :: r.id
  }

  ghost function UsedKeys(relations: seq<Relation>): set<(Uuid, Uuid, string)> {
    set r | r in relations && !r.deleted :: (r.parent, r.child, r.relationType)
  }

  // What one more relation has to satisfy after the relations before it.
  ghost predicate Fits(persons: set<Uuid>, before: seq<Relation>, r: Relation) {
    && r.id != 0 && r.parent != r.child && r.parent in persons && r.child in persons
    && r.id !in UsedIds(before)
    && (!r.deleted ==> (r.parent, r.child, r.relationType) !in UsedKeys(before))
  }

  lemma WellFormedStep(persons: set<Uuid>, relations: seq<Relation>, i: nat)
    requires i < |relations|
    ensures RelationsWellFormed(persons, relations[..i + 1]) <==>
            RelationsWellFormed(persons, relations[..i]) && Fits(persons, relations[..i], relations[i])
    ensures UsedIds(relations[..i + 1]) == UsedIds(relations[..i]) + {relations[i].id}
    ensures UsedKeys(relations[..i + 1]) == UsedKeys(relations[..i]) +
            (if relations[i].deleted then {} else {(relations[i].parent, relations[i].child, relations[i].relationType)})
  {
    var before, r := relations[..i], relations[i];
    assert relations[..i + 1] == before + [r];
    if RelationsWellFormed(persons, relations[..i + 1]) {
      assert (before + [r])[i] == r;
      forall q | q in before ensures q.id != r.id && !SameActiveKey(q, r) {
        var j :| 0 <= j < i && before[j] == q;
        assert (before + [r])[j] == q;
      }
    } else if RelationsWellFormed(persons, before) && Fits(persons, before, r) {
      forall j | 0 <= j < i ensures before[j].id != r.id && !SameActiveKey(before[j], r) {
        assert before[j] in before;
      }
    }
  }

  lemma {:induction false} PrefixWellFormed(persons: set<Uuid>, relations: seq<Relation>, i: nat)
    requires i <= |relations| && RelationsWellFormed(persons, relations)
    ensures RelationsWellFormed(persons, relations[..i])
  {
    forall r | r in relations[..i] ensures r in relations {
    }
  }

  // The checks on one relation, given the identities and active keys already taken.
  function CheckRelation(persons: set<Uuid>, ids: set<Uuid>, keys: set<(Uuid, Uuid, string)>, r: Relation): (result: Check)
    ensures result != Cycle
  {
    if r.id == 0 || r.parent == r.child then InvalidIdentity
    else if r.id in ids then DuplicateRelation
    else if r.parent !in persons then UnknownParent
    else if r.child !in persons then UnknownChild
    else if !r.deleted && (r.parent, r.child, r.relationType) in keys then DuplicateActiveRelation
    else Valid
  }

  lemma RefusedRelation(persons: set<Uuid>, relations: seq<Relation>, i: nat)
    requires i < |relations| && !Fits(persons, relations[..i], relations[i])
    ensures !RelationsWellFormed(persons, relations)
  {
    WellFormedStep(persons, relations, i);
    if RelationsWellFormed(persons, relations) {
      PrefixWellFormed(persons, relations, i + 1);
    }
  }

  // Parallel relations of different types are separate slots of the child lists.
  method CollectRelations(persons: set<Uuid>, relations: seq<Relation>)
      returns (result: Check, children: Lists, indegrees: map<Uuid, int>)
    ensures result == Valid <==> RelationsWellFormed(persons, relations)
    ensures result == Valid ==> Holds(children, indegrees, persons, ActiveEdges(relations, persons))
    ensures result != Cycle
  {
    var ids: set<Uuid> := {};
    var keys: set<(Uuid, Uuid, string)> := {};
    children := map[];
    indegrees := map p | p in persons :: 0;
    EmptyListsHaveNoSlots(children);
    for i := 0 to |relations|
      invariant RelationsWellFormed(persons, relations[..i])
      invariant ids == UsedIds(relations[..i]) && keys == UsedKeys(relations[..i])
      invariant Holds(children, indegrees, persons, ActiveEdges(relations[..i], persons))
    {
      var r := relations[i];
      result := CheckRelation(persons, ids, keys, r);
      if result != Valid {
        RefusedRelation(persons, relations, i);
        return;
      }
      WellFormedStep(persons, relations, i);
      ActiveEdgesStep(relations, persons, i);
      ids := ids + {r.id};
      if !r.deleted {
        keys := keys + {(r.parent, r.child, r.relationType)};
        children, indegrees := AddChild(children, indegrees, r.parent, r.child,
                                        persons, ActiveEdges(relations[..i], persons));
      }
    }
    assert relations[..|relations|] == relations;
    result := Valid;
  }

  method DiscountChildren(persons: set<Uuid>, children: Lists, indegrees0: map<Uuid, int>, queue0: seq<Uuid>,
                          personID: Uuid, ghost done: set<Uuid>, ghost pending0: set<Slot>)
      returns (indegrees: map<Uuid, int>, queue: seq<Uuid>, ghost pending: set<Slot>)
    requires Frontier(children, persons, indegrees0, queue0, done, pending0)
    requires LeavesFrom(children, done, pending0, personID, 0) && personID in done
    ensures Frontier(children, persons, indegrees, queue, done, pending)
    ensures LeavesUnvisited(children, done, pending)
  {
    indegrees, queue, pending := indegrees0, queue0, pending0;
    var list := ChildrenOf(children, personID);
    for i := 0 to |list|
      invariant Frontier(children, persons, indegrees, queue, done, pending)
      invariant LeavesFrom(children, done, pending, personID, i)
    {
      var childID := list[i];
      ghost var slot := Slot(personID, i);
      assert slot in Slots(children) && Enters(children, slot, childID);
      DiscountKeepsFrontier(children, persons, indegrees, queue, done, pending, slot, childID);
      AdvanceList(children, done, pending, personID, i);
      indegrees := indegrees[childID := indegrees[childID] - 1];
      pending := pending - {slot};
      if indegrees[childID] == 0 {
        queue := queue + [childID];
      }
    }
    FinishList(children, done, pending, personID);
  }

  // The last queued person may be visited.
  lemma VisitLast(children: Lists, persons: set<Uuid>, indegrees: map<Uuid, int>, queue: seq<Uuid>,
                  done: set<Uuid>, pending: set<Slot>, position: map<Uuid, int>)
    requires Frontier(children, persons, indegrees, queue, done, pending) && |queue| > 0
    requires Ordered(children, done, position) && LeavesUnvisited(children, done, pending)
    ensures var v := queue[|queue| - 1];
      && Frontier(children, persons, indegrees, queue[..|queue| - 1], done + {v}, pending)
      && Ordered(children, done + {v}, position[v := |done|])
      && LeavesFrom(children, done + {v}, pending, v, 0)
  {
    var k := |queue| - 1;
    VisitKeepsOrder(children, persons, indegrees, queue, done, pending, position, queue[k]);
    PopKeepsFrontier(children, persons, indegrees, queue, done, pending, k);
    assert queue[..k] + queue[k + 1..] == queue[..k];
    StartList(children, done, pending, queue[k]);
  }

  method ValidateManifestRelations(persons: seq<Uuid>, relations: seq<Relation>) returns (result: Check)
    ensures result == Valid <==> Restorable(persons, relations)
    ensures result == Cycle <==> RefusedForCycle(persons, relations)
  {
    var known;
    result, known := CheckPersons(persons);
    if result != Valid {
      return;
    }
    var children, indegrees;
    result, children, indegrees := CollectRelations(known, relations);
    if result != Valid {
      return;
    }
    var queue := InitialQueue(known, children, indegrees);
    var visited := 0;
    ghost var done: set<Uuid> := {};
    ghost var pending := Slots(children);
    ghost var position: map<Uuid, int> := map[];
    while |queue| > 0
      invariant Frontier(children, known, indegrees, queue, done, pending)
      invariant Ordered(children, done, position) && LeavesUnvisited(children, done, pending)
      invariant visited == |done|
      decreases known - done
    {
      var personID := queue[|queue| - 1];
      VisitLast(children, known, indegrees, queue, done, pending, position);
      queue := queue[..|queue| - 1];
      visited := visited + 1;
      position := position[personID := |done|];
      done := done + {personID};
      indegrees, queue, pending := DiscountChildren(known, children, indegrees, queue, personID, done, pending);
    }
    ExhaustedDecides(children, known, indegrees, done, pending, position);
    if visited != |known| {
      return Cycle;
    }
  }
}
