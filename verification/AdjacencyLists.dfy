/** Child lists with multiplicity, as the two topological passes use them. */
module AdjacencyLists {
  import opened Graphs

  type Lists = map<Uuid, seq<Uuid>>

  // One entry of one child list: parallel edges are different slots.
  datatype Slot = Slot(parent: Uuid, index: nat)

  // A missing key reads as the empty list.
  function ChildrenOf(children: Lists, p: Uuid): seq<Uuid> {
    if p in children then children[p] else []
  }

  ghost function Slots(children: Lists): set<Slot> {
    set p, i | p in children && 0 <= i < |children[p]| :: Slot(p, i)
  }

  ghost predicate Enters(children: Lists, s: Slot, v: Uuid) {
    s.parent in children && s.index < |children[s.parent]| && children[s.parent][s.index] == v
  }

  ghost function Into(children: Lists, slots: set<Slot>, v: Uuid): set<Slot> {
    set s | s in slots && Enters(children, s, v)
  }

  ghost function Edges(children: Lists): set<Edge> {
    set p, i | p in children && 0 <= i < |children[p]| :: Edge(p, children[p][i])
  }

  ghost predicate ListsWithin(children: Lists, vertices: set<Uuid>) {
    forall p, i :: p in children && 0 <= i < |children[p]| ==> p in vertices && children[p][i] in vertices
  }

  // indegrees[v] counts the slots that enter v.
  ghost predicate CountsSlots(children: Lists, slots: set<Slot>, vertices: set<Uuid>, indegrees: map<Uuid, int>) {
    indegrees.Keys == vertices && forall v :: v in vertices ==> indegrees[v] == |Into(children, slots, v)|
  }

  lemma AppendSlot(children: Lists, grown: Lists, p: Uuid, c: Uuid)
    requires grown == children[p := ChildrenOf(children, p) + [c]]
    ensures Slots(grown) == Slots(children) + {Slot(p, |ChildrenOf(children, p)|)}
    ensures Edges(grown) == Edges(children) + {Edge(p, c)}
  {
    var last := |ChildrenOf(children, p)|;
    assert grown[p][last] == c;
    assert Slots(grown) == Slots(children) + {Slot(p, last)};
    forall e | e in Edges(children) ensures e in Edges(grown) {
      var i :| 0 <= i < |children[e.parent]| && e == Edge(e.parent, children[e.parent][i]);
      assert grown[e.parent][i] == children[e.parent][i];
    }
    assert Edge(p, grown[p][last]) in Edges(grown);
    forall e | e in Edges(grown) ensures e in Edges(children) + {Edge(p, c)} {
      var i :| 0 <= i < |grown[e.parent]| && e == Edge(e.parent, grown[e.parent][i]);
      if !(e.parent == p && i == last) {
        assert grown[e.parent][i] == children[e.parent][i];
      }
    }
  }

  lemma AppendInto(children: Lists, grown: Lists, p: Uuid, c: Uuid, v: Uuid)
    requires grown == children[p := ChildrenOf(children, p) + [c]]
    ensures |Into(grown, Slots(grown), v)| == |Into(children, Slots(children), v)| + if v == c then 1 else 0
  {
    AppendSlot(children, grown, p, c);
    var added := Slot(p, |ChildrenOf(children, p)|);
    forall s | s in Slots(children) ensures Enters(grown, s, v) <==> Enters(children, s, v) {
      assert grown[s.parent][s.index] == children[s.parent][s.index];
    }
    assert added !in Slots(children);
    assert Enters(grown, added, v) <==> v == c;
    if v == c {
      assert Into(grown, Slots(grown), v) == Into(children, Slots(children), v) + {added};
    } else {
      assert Into(grown, Slots(grown), v) == Into(children, Slots(children), v);
    }
  }

  // Appending a child and counting it keeps the indegrees right.
  lemma AppendCounted(children: Lists, grown: Lists, vertices: set<Uuid>, indegrees: map<Uuid, int>, p: Uuid, c: Uuid)
    requires grown == children[p := ChildrenOf(children, p) + [c]]
    requires CountsSlots(children, Slots(children), vertices, indegrees)
    requires p in vertices && c in vertices
    ensures CountsSlots(grown, Slots(grown), vertices, indegrees[c := indegrees[c] + 1])
  {
    forall v | v in vertices
      ensures indegrees[c := indegrees[c] + 1][v] == |Into(grown, Slots(grown), v)|
    {
      AppendInto(children, grown, p, c, v);
    }
  }

  lemma AppendWithin(children: Lists, grown: Lists, vertices: set<Uuid>, p: Uuid, c: Uuid)
    requires grown == children[p := ChildrenOf(children, p) + [c]]
    requires ListsWithin(children, vertices) && p in vertices && c in vertices
    ensures ListsWithin(grown, vertices)
  {
    var list := ChildrenOf(children, p);
    assert grown[p] == list + [c];
    forall q | q in grown && |grown[q]| > 0 ensures q in vertices {
      if q != p {
        assert grown[q] == children[q] && children[q][0] in vertices;
      }
    }
    forall q, i | q in grown && 0 <= i < |grown[q]| ensures grown[q][i] in vertices {
      if q != p || i < |list| {
        assert grown[q][i] == children[q][i];
      }
    }
  }

  // A graph under construction: the lists hold exactly `edges`, and every slot is counted.
  ghost predicate Holds(children: Lists, indegrees: map<Uuid, int>, vertices: set<Uuid>, edges: set<Edge>) {
    && ListsWithin(children, vertices)
    && CountsSlots(children, Slots(children), vertices, indegrees)
    && Edges(children) == edges
  }

  method AddChild(children0: Lists, indegrees0: map<Uuid, int>, p: Uuid, c: Uuid,
                  ghost vertices: set<Uuid>, ghost edges: set<Edge>)
      returns (children: Lists, indegrees: map<Uuid, int>)
    requires Holds(children0, indegrees0, vertices, edges) && p in vertices && c in vertices
    ensures Holds(children, indegrees, vertices, edges + {Edge(p, c)})
    ensures children == children0[p := ChildrenOf(children0, p) + [c]]
  {
    children := children0[p := ChildrenOf(children0, p) + [c]];
    indegrees := indegrees0[c := indegrees0[c] + 1];
    AppendSlot(children0, children, p, c);
    AppendWithin(children0, children, vertices, p, c);
    AppendCounted(children0, children, vertices, indegrees0, p, c);
  }

  lemma EmptyListsHaveNoSlots(children: Lists)
    requires children == map[]
    ensures Slots(children) == {} && Edges(children) == {}
    ensures forall v :: Into(children, Slots(children), v) == {}
  {
  }
}
