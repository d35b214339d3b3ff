/** What both topological passes keep, whatever order they pop their queue in. */
module TopologicalPass {
  import opened Graphs
  import opened AdjacencyLists
  import opened Ordering

  // `pending` are the slots not yet discounted; the queue holds the unvisited vertices none of them enters.
  ghost predicate Frontier(children: Lists, vertices: set<Uuid>, indegrees: map<Uuid, int>,
                           queue: seq<Uuid>, done: set<Uuid>, pending: set<Slot>)
  {
    && ListsWithin(children, vertices)
    && CountsSlots(children, pending, vertices, indegrees)
    && pending <= Slots(children)
    && done <= vertices
    && Distinct(queue)
    && (forall v :: v in queue ==> v in vertices && v !in done)
    && (forall v :: v in vertices ==> (indegrees[v] == 0 <==> v in done || v in queue))
  }

  // Visited vertices carry labels that grow along every edge into them.
  ghost predicate Ordered(children: Lists, done: set<Uuid>, position: map<Uuid, int>) {
    && position.Keys == done
    && (forall v :: v in done ==> position[v] < |done|)
    && forall e :: e in Edges(children) && e.child in done ==> e.parent in done && position[e.parent] < position[e.child]
  }

  ghost predicate LeavesUnvisited(children: Lists, done: set<Uuid>, pending: set<Slot>) {
    forall s :: s in Slots(children) ==> (s in pending <==> s.parent !in done)
  }

  // Nothing pending enters a vertex whose indegree has dropped to zero.
  lemma ZeroMeansEntered(children: Lists, vertices: set<Uuid>, indegrees: map<Uuid, int>, pending: set<Slot>, v: Uuid)
    requires CountsSlots(children, pending, vertices, indegrees) && v in vertices && indegrees[v] == 0
    ensures forall s :: s in pending ==> !Enters(children, s, v)
  {
    assert Into(children, pending, v) == {};
    forall s | s in pending ensures !Enters(children, s, v) {
      assert s !in Into(children, pending, v);
    }
  }

  lemma VisitKeepsOrder(children: Lists, vertices: set<Uuid>, indegrees: map<Uuid, int>, queue: seq<Uuid>,
                        done: set<Uuid>, pending: set<Slot>, position: map<Uuid, int>, v: Uuid)
    requires Frontier(children, vertices, indegrees, queue, done, pending)
    requires Ordered(children, done, position) && LeavesUnvisited(children, done, pending)
    requires v in queue
    ensures Ordered(children, done + {v}, position[v := |done|])
  {
    ZeroMeansEntered(children, vertices, indegrees, pending, v);
    forall e | e in Edges(children) && e.child in done + {v}
      ensures e.parent in done && (e.child in done ==> position[e.parent] < position[e.child])
    {
      if e.child == v {
        var i :| 0 <= i < |children[e.parent]| && e == Edge(e.parent, children[e.parent][i]);
        assert Enters(children, Slot(e.parent, i), v);
        assert Slot(e.parent, i) in Slots(children);
      }
    }
  }

  lemma ParentsAreDone(children: Lists, done: set<Uuid>, position: map<Uuid, int>, v: Uuid)
    requires Ordered(children, done + {v}, position) && position.Keys == done + {v} && v !in done
    ensures forall e :: e in Edges(children) && e.child == v ==> e.parent in done
  {
  }

  // The vertices to start from, in whatever order the map yields them.
  method InitialQueue(vertices: set<Uuid>, children: Lists, indegrees: map<Uuid, int>) returns (queue: seq<Uuid>)
    requires ListsWithin(children, vertices) && CountsSlots(children, Slots(children), vertices, indegrees)
    ensures Frontier(children, vertices, indegrees, queue, {}, Slots(children))
  {
    queue := [];
    var rest := vertices;
    while rest != {}
      invariant rest <= vertices && Distinct(queue)
      invariant forall v :: v in queue <==> v in vertices - rest && indegrees[v] == 0
      decreases rest
    {
      var v :| v in rest;
      rest := rest - {v};
      if indegrees[v] == 0 {
        queue := queue + [v];
      }
    }
  }

  // Discounting one slot keeps the counts.
  lemma ReleaseSlot(children: Lists, vertices: set<Uuid>, indegrees: map<Uuid, int>, pending: set<Slot>, s: Slot, c: Uuid)
    requires ListsWithin(children, vertices) && CountsSlots(children, pending, vertices, indegrees)
    requires s in pending && Enters(children, s, c)
    ensures c in vertices && indegrees[c] >= 1
    ensures CountsSlots(children, pending - {s}, vertices, indegrees[c := indegrees[c] - 1])
  {
    assert Into(children, pending - {s}, c) == Into(children, pending, c) - {s};
    assert s in Into(children, pending, c);
    forall v | v in vertices && v != c
      ensures Into(children, pending - {s}, v) == Into(children, pending, v)
    {
    }
  }

  // In the middle of p's list: p is visited and its slots from i on are still pending.
  ghost predicate LeavesFrom(children: Lists, done: set<Uuid>, pending: set<Slot>, p: Uuid, i: nat) {
    forall s :: s in Slots(children) ==> (s in pending <==> s.parent !in done || (s.parent == p && s.index >= i))
  }

  lemma StartList(children: Lists, done: set<Uuid>, pending: set<Slot>, p: Uuid)
    requires LeavesUnvisited(children, done, pending) && p !in done
    ensures LeavesFrom(children, done + {p}, pending, p, 0)
  {
  }

  lemma AdvanceList(children: Lists, done: set<Uuid>, pending: set<Slot>, p: Uuid, i: nat)
    requires LeavesFrom(children, done, pending, p, i) && p in done
    ensures LeavesFrom(children, done, pending - {Slot(p, i)}, p, i + 1)
  {
  }

  lemma FinishList(children: Lists, done: set<Uuid>, pending: set<Slot>, p: Uuid)
    requires LeavesFrom(children, done, pending, p, |ChildrenOf(children, p)|)
    ensures LeavesUnvisited(children, done, pending)
  {
  }

  // Discounting a slot and queueing its child when nothing else enters it keeps the frontier.
  lemma DiscountKeepsFrontier(children: Lists, vertices: set<Uuid>, indegrees: map<Uuid, int>, queue: seq<Uuid>,
                              done: set<Uuid>, pending: set<Slot>, s: Slot, c: Uuid)
    requires Frontier(children, vertices, indegrees, queue, done, pending)
    requires s in pending && Enters(children, s, c)
    ensures c in vertices && c !in done && c !in queue
    ensures Frontier(children, vertices, indegrees[c := indegrees[c] - 1],
                     if indegrees[c] - 1 == 0 then queue + [c] else queue, done, pending - {s})
  {
    ReleaseSlot(children, vertices, indegrees, pending, s, c);
  }

  // Taking any member out of the queue and counting it as visited keeps the frontier.
  lemma PopKeepsFrontier(children: Lists, vertices: set<Uuid>, indegrees: map<Uuid, int>, queue: seq<Uuid>,
                         done: set<Uuid>, pending: set<Slot>, k: nat)
    requires Frontier(children, vertices, indegrees, queue, done, pending) && k < |queue|
    ensures Frontier(children, vertices, indegrees, queue[..k] + queue[k + 1..], done + {queue[k]}, pending)
  {
    var rest := queue[..k] + queue[k + 1..];
    assert forall i :: 0 <= i < |rest| ==> rest[i] == queue[if i < k then i else i + 1];
    forall v | v in queue && v != queue[k] ensures v in rest {
      var i :| 0 <= i < |queue| && queue[i] == v;
      assert rest[if i < k then i else i - 1] == v;
    }
  }

  lemma StuckHasPredecessor(children: Lists, vertices: set<Uuid>, indegrees: map<Uuid, int>,
                            done: set<Uuid>, pending: set<Slot>, v: Uuid)
    requires ListsWithin(children, vertices) && CountsSlots(children, pending, vertices, indegrees)
    requires pending <= Slots(children) && LeavesUnvisited(children, done, pending)
    requires v in vertices && indegrees[v] != 0
    ensures HasPredecessorIn(Edges(children), vertices - done, v)
  {
    assert Into(children, pending, v) != {};
    var s :| s in Into(children, pending, v);
    assert s in Slots(children);
    assert Edge(s.parent, v) in Edges(children);
  }

  lemma AllVisitedMeansAcyclic(children: Lists, vertices: set<Uuid>, position: map<Uuid, int>)
    requires ListsWithin(children, vertices) && Ordered(children, vertices, position)
    ensures Acyclic(Edges(children))
  {
    forall e | e in Edges(children)
      ensures e.parent in position && e.child in position && position[e.parent] < position[e.child]
    {
      var i :| 0 <= i < |children[e.parent]| && e == Edge(e.parent, children[e.parent][i]);
      assert e.child in vertices;
    }
    HeightsMakeAcyclic(Edges(children), position);
  }

  lemma SomeUnvisitedMeansCycle(children: Lists, vertices: set<Uuid>, indegrees: map<Uuid, int>,
                                done: set<Uuid>, pending: set<Slot>)
    requires ListsWithin(children, vertices) && CountsSlots(children, pending, vertices, indegrees)
    requires pending <= Slots(children) && LeavesUnvisited(children, done, pending)
    requires done < vertices && forall v :: v in vertices - done ==> indegrees[v] != 0
    ensures !Acyclic(Edges(children))
  {
    var stuck := vertices - done;
    forall v | v in stuck ensures HasPredecessorIn(Edges(children), stuck, v) {
      StuckHasPredecessor(children, vertices, indegrees, done, pending, v);
    }
    NoSourceMeansCycle(Edges(children), stuck);
  }

  // An exhausted queue decides acyclicity: everybody was visited exactly when there is no cycle.
  lemma ExhaustedDecides(children: Lists, vertices: set<Uuid>, indegrees: map<Uuid, int>,
                         done: set<Uuid>, pending: set<Slot>, position: map<Uuid, int>)
    requires Frontier(children, vertices, indegrees, [], done, pending)
    requires Ordered(children, done, position) && LeavesUnvisited(children, done, pending)
    ensures |done| == |vertices| <==> Acyclic(Edges(children))
    ensures |done| == |vertices| <==> done == vertices
  {
    assert |vertices| == |done| + |vertices - done|;
    if done == vertices {
      AllVisitedMeansAcyclic(children, vertices, position);
    } else {
      SomeUnvisitedMeansCycle(children, vertices, indegrees, done, pending);
    }
  }
}
