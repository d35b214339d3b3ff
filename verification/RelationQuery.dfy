/** The recursive query that looks for the parent among the child's descendants. */
module RelationQuery {
  import opened Graphs
  import opened AncestryTables

  // A row of the recursive query: a simple path from the start, its last element being the row's person.
  ghost predicate IsRow(t: Tables, start: Uuid, path: seq<Uuid>) {
    IsWalk(QueryEdges(t), path) && path[0] == start && Simple(path)
  }

  // One join step: extend every working path by a joinable relation into a person not yet on it.
  function Extensions(t: Tables, working: set<seq<Uuid>>): set<seq<Uuid>> {
    set path, id | path in working && path != [] && id in t.relations && Joinable(t, id) &&
      t.relations[id].parent == path[|path| - 1] && t.relations[id].child !in path
      :: path + [t.relations[id].child]
  }

  ghost predicate WorkingRows(t: Tables, start: Uuid, working: set<seq<Uuid>>, n: nat) {
    forall path :: path in working <==> IsRow(t, start, path) && |path| == n
  }

  lemma ExtensionsAreNextRows(t: Tables, start: Uuid, working: set<seq<Uuid>>, n: nat)
    requires WorkingRows(t, start, working, n) && n >= 1
    ensures WorkingRows(t, start, Extensions(t, working), n + 1)
  {
    forall path | path in Extensions(t, working) ensures IsRow(t, start, path) && |path| == n + 1 {
      var p, id :| p in working && p != [] && id in t.relations && Joinable(t, id) &&
        t.relations[id].parent == p[|p| - 1] && t.relations[id].child !in p && path == p + [t.relations[id].child];
      assert Edge(t.relations[id].parent, t.relations[id].child) in QueryEdges(t);
      WalkConcat(QueryEdges(t), p, [t.relations[id].child]);
    }
    forall path | IsRow(t, start, path) && |path| == n + 1 ensures path in Extensions(t, working) {
      var p, c := path[..n], path[n];
      assert Edge(p[n - 1], c) in QueryEdges(t);
      var id :| id in t.relations && Joinable(t, id) && Edge(p[n - 1], c) == Edge(t.relations[id].parent, t.relations[id].child);
      WalkSlice(QueryEdges(t), path, 0, n);
      assert p in working;
      assert c !in p;
      assert path == p + [t.relations[id].child];
    }
  }

  ghost function Vertices(t: Tables, start: Uuid): set<Uuid> {
    {start} + set id | id in t.relations :: t.relations[id].child
  }

  lemma RowLength(t: Tables, start: Uuid, path: seq<Uuid>)
    requires IsRow(t, start, path)
    ensures |path| <= |Vertices(t, start)|
  {
    forall v | v in path ensures v in Vertices(t, start) {
      var i :| 0 <= i < |path| && path[i] == v;
      if i > 0 {
        assert Edge(path[i - 1], path[i]) in QueryEdges(t);
      }
    }
    SimpleBound(path, Vertices(t, start));
  }

  lemma {:induction false} NoLongerRows(t: Tables, start: Uuid, path: seq<Uuid>, n: nat)
    requires n >= 1 && IsRow(t, start, path) && forall p :: IsRow(t, start, p) ==> |p| != n
    ensures |path| < n
  {
    if |path| >= n {
      WalkSlice(QueryEdges(t), path, 0, n);
      assert IsRow(t, start, path[..n]);
    }
  }

  // The path-carrying recursive query terminates and returns exactly the simple paths from the start.
  method Descendants(t: Tables, start: Uuid) returns (rows: set<seq<Uuid>>)
    ensures forall path :: path in rows <==> IsRow(t, start, path)
  {
    rows := {[start]};
    var working: set<seq<Uuid>> := {[start]};
    ghost var n := 1;
    assert forall path: seq<Uuid> :: |path| == 1 && path[0] == start ==> path == [start];
    while working != {}
      invariant n >= 1 && WorkingRows(t, start, working, n)
      invariant forall path :: path in rows <==> IsRow(t, start, path) && |path| <= n
      invariant n <= |Vertices(t, start)| + 1
      decreases |Vertices(t, start)| + 1 - n
    {
      ghost var some :| some in working;
      RowLength(t, start, some);
      ExtensionsAreNextRows(t, start, working, n);
      working := Extensions(t, working) - rows;
      rows := rows + working;
      n := n + 1;
    }
    assert forall path :: IsRow(t, start, path) && |path| == n ==> path in working;
    forall path | IsRow(t, start, path) ensures path in rows {
      NoLongerRows(t, start, path, n);
    }
  }

  // The query answers reachability: a walk to the parent exists exactly when a row ends there.
  method CreatesCycle(t: Tables, parent: Uuid, child: Uuid) returns (createsCycle: bool)
    ensures createsCycle <==> Reaches(QueryEdges(t), child, parent)
  {
    var rows := Descendants(t, child);
    createsCycle := exists path :: path in rows && path != [] && path[|path| - 1] == parent;
    if Reaches(QueryEdges(t), child, parent) {
      ghost var w :| WalkFromTo(QueryEdges(t), w, child, parent);
      ghost var s := Shorten(QueryEdges(t), w);
      assert IsRow(t, child, s);
    }
    if createsCycle {
      ghost var path :| path in rows && path != [] && path[|path| - 1] == parent;
      assert WalkFromTo(QueryEdges(t), path, child, parent);
    }
  }

  // From an active child the query sees exactly the visible ancestry.
  lemma {:induction false} QueryWalkIsLive(t: Tables, w: seq<Uuid>)
    requires IsWalk(QueryEdges(t), w) && Active(t, w[0])
    ensures IsWalk(LiveEdges(t), w) && Active(t, w[|w| - 1])
    decreases |w|
  {
    if |w| > 1 {
      var head, last := w[..|w| - 1], w[|w| - 1];
      WalkSlice(QueryEdges(t), w, 0, |w| - 1);
      QueryWalkIsLive(t, head);
      assert Edge(w[|w| - 2], last) in QueryEdges(t);
      var id :| id in t.relations && Joinable(t, id) &&
        Edge(w[|w| - 2], last) == Edge(t.relations[id].parent, t.relations[id].child);
      assert Live(t, id);
      assert Edge(w[|w| - 2], last) in LiveEdges(t);
      WalkConcat(LiveEdges(t), head, [last]);
      assert head + [last] == w;
    }
  }

  // A refusal is never unfounded: with both persons active, the query says "cycle" exactly when the new
  // relation would close one.
  lemma RefusalIsExact(t: Tables, parent: Uuid, child: Uuid)
    requires Active(t, child) && Acyclic(LiveEdges(t))
    ensures Reaches(QueryEdges(t), child, parent) <==> !Acyclic(LiveEdges(t) + {Edge(parent, child)})
  {
    AddEdgeAcyclic(LiveEdges(t), Edge(parent, child));
    if Reaches(QueryEdges(t), child, parent) {
      var w :| WalkFromTo(QueryEdges(t), w, child, parent);
      QueryWalkIsLive(t, w);
      assert WalkFromTo(LiveEdges(t), w, child, parent);
    }
    if Reaches(LiveEdges(t), child, parent) {
      LiveWithinQuery(t);
      ReachesMonotone(LiveEdges(t), QueryEdges(t), child, parent);
    }
  }
}
