/** Kahn ranking of the family graph: a person's generation is the length of the longest chain of ancestors. */
module Generations {
  import opened Graphs
  import opened AdjacencyLists
  import opened TopologicalPass
  import opened Ordering

  type Ranks = map<Uuid, nat>

  // A person without an entry has rank 0.
  function RankOf(ranks: Ranks, v: Uuid): nat {
    if v in ranks then ranks[v] else 0
  }

  ghost predicate ChainTo(edges: set<Edge>, v: Uuid, n: nat) {
    exists w :: IsWalk(edges, w) && w[|w| - 1] == v && |w| == n + 1
  }

  ghost predicate ChainsFit(edges: set<Edge>, v: Uuid, n: nat) {
    forall w :: IsWalk(edges, w) && w[|w| - 1] == v ==> |w| <= n + 1
  }

  // n is the number of edges on the longest chain of ancestors that ends in v.
  ghost predicate LongestChain(edges: set<Edge>, v: Uuid, n: nat) {
    ChainTo(edges, v, n) && ChainsFit(edges, v, n)
  }

  // Every discounted slot has pushed its child below its parent.
  ghost predicate Pushed(children: Lists, pending: set<Slot>, ranks: Ranks) {
    forall s, c :: s in Slots(children) && s !in pending && Enters(children, s, c) ==> RankOf(ranks, s.parent) < RankOf(ranks, c)
  }

  // Once every chain into v's parents is measured, so is v's.
  lemma ChainsFitBelow(children: Lists, ranks: Ranks, done: set<Uuid>, pending: set<Slot>, v: Uuid)
    requires Pushed(children, pending, ranks)
    requires forall s :: s in pending ==> !Enters(children, s, v)
    requires forall e :: e in Edges(children) && e.child == v ==> e.parent in done
    requires forall p :: p in done ==> ChainsFit(Edges(children), p, RankOf(ranks, p))
    ensures ChainsFit(Edges(children), v, RankOf(ranks, v))
  {
    forall w | IsWalk(Edges(children), w) && w[|w| - 1] == v
      ensures |w| <= RankOf(ranks, v) + 1
    {
      if |w| > 1 {
        var p := w[|w| - 2];
        assert Edge(p, v) in Edges(children);
        WalkSlice(Edges(children), w, 0, |w| - 1);
        assert w[..|w| - 1][|w| - 2] == p;
        var i :| 0 <= i < |children[p]| && Edge(p, v) == Edge(p, children[p][i]);
        assert Slot(p, i) in Slots(children) && Enters(children, Slot(p, i), v);
      }
    }
  }

  lemma ChainExtends(edges: set<Edge>, p: Uuid, c: Uuid, n: nat)
    requires ChainTo(edges, p, n) && Edge(p, c) in edges
    ensures ChainTo(edges, c, n + 1)
  {
    var w :| IsWalk(edges, w) && w[|w| - 1] == p && |w| == n + 1;
    WalkConcat(edges, w, [c]);
    assert (w + [c])[|w + [c]| - 1] == c;
  }

  // What the ranks say halfway: every rank is the length of some chain, and the visited ranks are final.
  ghost predicate Measured(children: Lists, persons: set<Uuid>, ranks: Ranks, done: set<Uuid>, pending: set<Slot>) {
    && ranks.Keys <= persons
    && Pushed(children, pending, ranks)
    && (forall v :: v in persons ==> ChainTo(Edges(children), v, RankOf(ranks, v)))
    && (forall v :: v in done ==> ChainsFit(Edges(children), v, RankOf(ranks, v)))
  }

  lemma InitiallyMeasured(children: Lists, persons: set<Uuid>)
    ensures Measured(children, persons, map[], {}, Slots(children))
  {
    forall v | v in persons ensures ChainTo(Edges(children), v, 0) {
      assert IsWalk(Edges(children), [v]) && [v][|[v]| - 1] == v;
    }
  }

  function Raise(ranks: Ranks, p: Uuid, c: Uuid): Ranks {
    if RankOf(ranks, c) < RankOf(ranks, p) + 1 then ranks[c := RankOf(ranks, p) + 1] else ranks
  }

  lemma RaiseKeepsMeasured(children: Lists, persons: set<Uuid>, ranks: Ranks, done: set<Uuid>, pending: set<Slot>,
                           s: Slot, c: Uuid)
    requires Measured(children, persons, ranks, done, pending) && ListsWithin(children, persons)
    requires s in pending && s in Slots(children) && Enters(children, s, c) && c !in done && s.parent in done
    requires forall t :: t in Slots(children) && t.parent !in done ==> t in pending
    ensures Measured(children, persons, Raise(ranks, s.parent, c), done, pending - {s})
  {
    assert Edge(s.parent, c) in Edges(children);
    if RankOf(ranks, c) < RankOf(ranks, s.parent) + 1 {
      ChainExtends(Edges(children), s.parent, c, RankOf(ranks, s.parent));
    }
  }

  // The body of the pass: discounts the children of a person taken from the queue and pushes them down.
  method PushChildren(persons: set<Uuid>, children: Lists, indegrees0: map<Uuid, int>, queue0: seq<Uuid>,
                      ranks0: Ranks, personID: Uuid, ghost done: set<Uuid>, ghost pending0: set<Slot>)
      returns (indegrees: map<Uuid, int>, queue: seq<Uuid>, ranks: Ranks, ghost pending: set<Slot>)
    requires Frontier(children, persons, indegrees0, queue0, done, pending0)
    requires Measured(children, persons, ranks0, done, pending0)
    requires LeavesFrom(children, done, pending0, personID, 0) && personID in done
    ensures Frontier(children, persons, indegrees, queue, done, pending)
    ensures Measured(children, persons, ranks, done, pending)
    ensures LeavesUnvisited(children, done, pending)
  {
    indegrees, queue, ranks, pending := indegrees0, queue0, ranks0, pending0;
    var list := ChildrenOf(children, personID);
    for i := 0 to |list|
      invariant Frontier(children, persons, indegrees, queue, done, pending)
      invariant LeavesFrom(children, done, pending, personID, i)
      invariant Measured(children, persons, ranks, done, pending)
    {
      var childID := list[i];
      ghost var slot := Slot(personID, i);
      assert slot in Slots(children) && Enters(children, slot, childID);
      DiscountKeepsFrontier(children, persons, indegrees, queue, done, pending, slot, childID);
      RaiseKeepsMeasured(children, persons, ranks, done, pending, slot, childID);
      AdvanceList(children, done, pending, personID, i);
      if RankOf(ranks, childID) < RankOf(ranks, personID) + 1 {
        ranks := ranks[childID := RankOf(ranks, personID) + 1];
      }
      indegrees := indegrees[childID := indegrees[childID] - 1];
      pending := pending - {slot};
      if indegrees[childID] == 0 {
        queue := queue + [childID];
      }
    }
    FinishList(children, done, pending, personID);
  }

  // The head of the queue has its final rank, so it may be visited.
  lemma MeasureVisited(children: Lists, persons: set<Uuid>, indegrees: map<Uuid, int>, queue: seq<Uuid>,
                       done: set<Uuid>, pending: set<Slot>, position: map<Uuid, int>, ranks: Ranks)
    requires Frontier(children, persons, indegrees, queue, done, pending) && |queue| > 0
    requires Ordered(children, done, position) && LeavesUnvisited(children, done, pending)
    requires Measured(children, persons, ranks, done, pending)
    ensures Frontier(children, persons, indegrees, queue[1..], done + {queue[0]}, pending)
    ensures Ordered(children, done + {queue[0]}, position[queue[0] := |done|])
    ensures Measured(children, persons, ranks, done + {queue[0]}, pending)
    ensures LeavesFrom(children, done + {queue[0]}, pending, queue[0], 0)
  {
    VisitKeepsOrder(children, persons, indegrees, queue, done, pending, position, queue[0]);
    ZeroMeansEntered(children, persons, indegrees, pending, queue[0]);
    PopKeepsFrontier(children, persons, indegrees, queue, done, pending, 0);
    assert queue[..0] + queue[1..] == queue[1..];
    ParentsAreDone(children, done, position[queue[0] := |done|], queue[0]);
    ChainsFitBelow(children, ranks, done, pending, queue[0]);
    StartList(children, done, pending, queue[0]);
  }

  method GenerationRanks(persons: set<Uuid>, children: Lists, indegrees0: map<Uuid, int>)
      returns (ranks: Ranks, acyclic: bool)
    requires ListsWithin(children, persons) && CountsSlots(children, Slots(children), persons, indegrees0)
    ensures acyclic <==> Acyclic(Edges(children))
    ensures acyclic ==> forall v :: v in persons ==> LongestChain(Edges(children), v, RankOf(ranks, v))
    ensures ranks.Keys <= persons
  {
    var indegrees := indegrees0;
    var sources := InitialQueue(persons, children, indegrees);
    var queue := Sort(map[], sources);
    ranks := map[];
    var visited := 0;
    ghost var done: set<Uuid> := {};
    ghost var pending := Slots(children);
    ghost var position: map<Uuid, int> := map[];
    InitiallyMeasured(children, persons);
    while |queue| > 0
      invariant Frontier(children, persons, indegrees, queue, done, pending)
      invariant Ordered(children, done, position) && LeavesUnvisited(children, done, pending)
      invariant Measured(children, persons, ranks, done, pending)
      invariant visited == |done|
      decreases persons - done
    {
      var personID := queue[0];
      MeasureVisited(children, persons, indegrees, queue, done, pending, position, ranks);
      queue := queue[1..];
      visited := visited + 1;
      position := position[personID := |done|];
      done := done + {personID};
      indegrees, queue, ranks, pending :=
        PushChildren(persons, children, indegrees, queue, ranks, personID, done, pending);
    }
    ExhaustedDecides(children, persons, indegrees, done, pending, position);
    acyclic := visited == |persons|;
  }
}
