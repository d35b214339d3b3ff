/** Directed graphs of family relations: walks, reachability and acyclicity. */
module Graphs {
  // A UUID. Its fixed-width textual form orders like the number it denotes; 0 is the nil UUID.
  type Uuid = nat

  datatype Edge = Edge(parent: Uuid, child: Uuid)

  ghost predicate IsWalk(edges: set<Edge>, w: seq<Uuid>) {
    |w| > 0 && forall i, j :: 0 <= i < |w| && j == i + 1 && j < |w| ==> Edge(w[i], w[j]) in edges
  }

  ghost predicate WalkFromTo(edges: set<Edge>, w: seq<Uuid>, a: Uuid, b: Uuid) {
    IsWalk(edges, w) && w[0] == a && w[|w| - 1] == b
  }

  ghost predicate Reaches(edges: set<Edge>, a: Uuid, b: Uuid) {
    exists w :: WalkFromTo(edges, w, a, b)
  }

  ghost predicate IsCycle(edges: set<Edge>, w: seq<Uuid>) {
    IsWalk(edges, w) && |w| > 1 && w[0] == w[|w| - 1]
  }

  ghost predicate Acyclic(edges: set<Edge>) {
    forall w :: !IsCycle(edges, w)
  }

  ghost predicate Simple(w: seq<Uuid>) {
    forall i, j :: 0 <= i < j < |w| ==> w[i] != w[j]
  }

  ghost predicate Within(edges: set<Edge>, vertices: set<Uuid>) {
    forall e :: e in edges ==> e.parent in vertices && e.child in vertices
  }

  lemma WalkSlice(edges: set<Edge>, w: seq<Uuid>, lo: nat, hi: nat)
    requires IsWalk(edges, w) && lo < hi <= |w|
    ensures IsWalk(edges, w[lo..hi])
  {
  }

  lemma WalkConcat(edges: set<Edge>, a: seq<Uuid>, b: seq<Uuid>)
    requires IsWalk(edges, a) && IsWalk(edges, b)
    requires Edge(a[|a| - 1], b[0]) in edges
    ensures IsWalk(edges, a + b)
  {
  }

  lemma WalkSubset(small: set<Edge>, large: set<Edge>, w: seq<Uuid>)
    requires small <= large && IsWalk(small, w)
    ensures IsWalk(large, w)
  {
  }

  lemma AcyclicSubset(small: set<Edge>, large: set<Edge>)
    requires small <= large && Acyclic(large)
    ensures Acyclic(small)
  {
    forall w ensures !IsCycle(small, w) {
      if IsCycle(small, w) {
        WalkSubset(small, large, w);
        assert IsCycle(large, w);
      }
    }
  }

  // Walks compose at a shared vertex.
  lemma ReachesTransitive(edges: set<Edge>, a: Uuid, b: Uuid, c: Uuid)
    requires Reaches(edges, a, b) && Reaches(edges, b, c)
    ensures Reaches(edges, a, c)
  {
    var v :| WalkFromTo(edges, v, a, b);
    var w :| WalkFromTo(edges, w, b, c);
    if |w| > 1 {
      WalkSlice(edges, w, 1, |w|);
      WalkConcat(edges, v, w[1..]);
      assert WalkFromTo(edges, v + w[1..], a, c);
    } else {
      assert b == c;
    }
  }

  // A walk shortens to a simple walk with the same ends.
  lemma {:induction false} Shorten(edges: set<Edge>, w: seq<Uuid>) returns (s: seq<Uuid>)
    requires IsWalk(edges, w)
    ensures WalkFromTo(edges, s, w[0], w[|w| - 1]) && Simple(s) && |s| <= |w|
    decreases |w|
  {
    if Simple(w) {
      s := w;
    } else {
      var i, j :| 0 <= i < j < |w| && w[i] == w[j];
      var cut := w[..i + 1] + w[j + 1..];
      if j + 1 < |w| {
        WalkSlice(edges, w, 0, i + 1);
        WalkSlice(edges, w, j + 1, |w|);
        assert Edge(w[j], w[j + 1]) in edges;
        WalkConcat(edges, w[..i + 1], w[j + 1..]);
      } else {
        WalkSlice(edges, w, 0, i + 1);
        assert cut == w[..i + 1];
      }
      s := Shorten(edges, cut);
    }
  }

  // A sequence without repetitions fits into any set that contains it.
  lemma {:induction false} SimpleBound(w: seq<Uuid>, vertices: set<Uuid>)
    requires Simple(w) && forall v :: v in w ==> v in vertices
    ensures |w| <= |vertices|
  {
    if |w| > 0 {
      var last := w[|w| - 1];
      SimpleBound(w[..|w| - 1], vertices - {last});
    }
  }

  // Strictly increasing heights rule out cycles.
  lemma {:induction false} HeightGrowsAlongWalk(edges: set<Edge>, height: map<Uuid, int>, w: seq<Uuid>)
    requires IsWalk(edges, w)
    requires forall e :: e in edges ==> e.parent in height && e.child in height && height[e.parent] < height[e.child]
    requires w[0] in height
    ensures w[|w| - 1] in height && height[w[0]] + |w| - 1 <= height[w[|w| - 1]]
    decreases |w|
  {
    if |w| > 1 {
      WalkSlice(edges, w, 0, |w| - 1);
      HeightGrowsAlongWalk(edges, height, w[..|w| - 1]);
      assert Edge(w[|w| - 2], w[|w| - 1]) in edges;
    }
  }

  lemma HeightsMakeAcyclic(edges: set<Edge>, height: map<Uuid, int>)
    requires forall e :: e in edges ==> e.parent in height && e.child in height && height[e.parent] < height[e.child]
    ensures Acyclic(edges)
  {
    forall w ensures !IsCycle(edges, w) {
      if IsCycle(edges, w) {
        assert Edge(w[0], w[1]) in edges;
        HeightGrowsAlongWalk(edges, height, w);
      }
    }
  }

  ghost predicate HasPredecessorIn(edges: set<Edge>, stuck: set<Uuid>, v: Uuid) {
    exists p :: p in stuck && Edge(p, v) in edges
  }

  ghost predicate NoSource(edges: set<Edge>, stuck: set<Uuid>) {
    forall v {:trigger HasPredecessorIn(edges, stuck, v)} :: v in stuck ==> HasPredecessorIn(edges, stuck, v)
  }

  // Going backwards inside a set where everybody has a predecessor never gets stuck.
  lemma {:induction false} BackwardWalk(edges: set<Edge>, stuck: set<Uuid>, start: Uuid, n: nat) returns (w: seq<Uuid>)
    requires start in stuck
    requires NoSource(edges, stuck)
    ensures IsWalk(edges, w) && |w| == n + 1 && forall v :: v in w ==> v in stuck
  {
    if n == 0 {
      w := [start];
    } else {
      var rest := BackwardWalk(edges, stuck, start, n - 1);
      assert HasPredecessorIn(edges, stuck, rest[0]);
      var p :| p in stuck && Edge(p, rest[0]) in edges;
      WalkConcat(edges, [p], rest);
      w := [p] + rest;
    }
  }

  lemma RepetitionIsCycle(edges: set<Edge>, w: seq<Uuid>)
    requires IsWalk(edges, w) && !Simple(w)
    ensures !Acyclic(edges)
  {
    var i, j :| 0 <= i < j < |w| && w[i] == w[j];
    WalkSlice(edges, w, i, j + 1);
    assert IsCycle(edges, w[i..j + 1]);
  }

  // A non-empty finite set in which everybody has a predecessor contains a cycle.
  lemma NoSourceMeansCycle(edges: set<Edge>, stuck: set<Uuid>)
    requires stuck != {}
    requires NoSource(edges, stuck)
    ensures !Acyclic(edges)
  {
    var start :| start in stuck;
    var w := BackwardWalk(edges, stuck, start, |stuck|);
    if Simple(w) {
      SimpleBound(w, stuck);
    }
    RepetitionIsCycle(edges, w);
  }

  // The last step over `bridge` splits a walk of the larger graph.
  lemma {:induction false} SplitAtBridge(edges: set<Edge>, bridge: Edge, w: seq<Uuid>)
    requires IsWalk(edges + {bridge}, w)
    ensures IsWalk(edges, w) || Reaches(edges, bridge.child, w[|w| - 1])
    decreases |w|
  {
    if |w| == 1 {
    } else {
      var head := w[..|w| - 1];
      WalkSlice(edges + {bridge}, w, 0, |w| - 1);
      SplitAtBridge(edges, bridge, head);
      var step := Edge(w[|w| - 2], w[|w| - 1]);
      assert step in edges + {bridge};
      if step == bridge {
        assert WalkFromTo(edges, [bridge.child], bridge.child, w[|w| - 1]);
      } else {
        if IsWalk(edges, head) {
          WalkConcat(edges, head, [w[|w| - 1]]);
          assert head + [w[|w| - 1]] == w;
        } else {
          assert WalkFromTo(edges, [step.parent, step.child], step.parent, step.child);
          ReachesTransitive(edges, bridge.child, step.parent, step.child);
        }
      }
    }
  }

  // Where the first use of `bridge` starts: a prefix of the walk that avoids it.
  lemma {:induction false} PrefixToBridge(edges: set<Edge>, bridge: Edge, w: seq<Uuid>)
    requires IsWalk(edges + {bridge}, w)
    ensures IsWalk(edges, w) || Reaches(edges, w[0], bridge.parent)
    decreases |w|
  {
    if |w| == 1 {
    } else {
      var head := w[..|w| - 1];
      WalkSlice(edges + {bridge}, w, 0, |w| - 1);
      PrefixToBridge(edges, bridge, head);
      var step := Edge(w[|w| - 2], w[|w| - 1]);
      assert step in edges + {bridge};
      if IsWalk(edges, head) {
        if step == bridge {
          assert WalkFromTo(edges, head, w[0], bridge.parent);
        } else {
          WalkConcat(edges, head, [w[|w| - 1]]);
          assert head + [w[|w| - 1]] == w;
        }
      }
    }
  }

  // Adding an edge to an acyclic graph keeps it acyclic exactly when its child did not reach its parent.
  lemma AddEdgeAcyclic(edges: set<Edge>, bridge: Edge)
    requires Acyclic(edges)
    ensures Acyclic(edges + {bridge}) <==> !Reaches(edges, bridge.child, bridge.parent)
  {
    if Reaches(edges, bridge.child, bridge.parent) {
      var w :| WalkFromTo(edges, w, bridge.child, bridge.parent);
      WalkSubset(edges, edges + {bridge}, w);
      WalkConcat(edges + {bridge}, w, [bridge.child]);
      assert IsCycle(edges + {bridge}, w + [bridge.child]);
    } else {
      forall w ensures !IsCycle(edges + {bridge}, w) {
        if IsCycle(edges + {bridge}, w) {
          SplitAtBridge(edges, bridge, w);
          PrefixToBridge(edges, bridge, w);
          assert !IsCycle(edges, w);
          if !IsWalk(edges, w) {
            ReachesTransitive(edges, bridge.child, w[0], bridge.parent);
          }
        }
      }
    }
  }

  // ---- Bringing back a vertex ----

  // `edges` plus a vertex p with the given neighbours.
  ghost function WithVertex(edges: set<Edge>, p: Uuid, parents: set<Uuid>, children: set<Uuid>): set<Edge> {
    edges + (set q | q in parents :: Edge(q, p)) + (set c | c in children :: Edge(p, c))
  }

  ghost predicate Absent(edges: set<Edge>, p: Uuid) {
    forall e :: e in edges ==> e.parent != p && e.child != p
  }

  // The first arrival at p came from one of its parents over the old edges.
  lemma {:induction false} FirstArrival(edges: set<Edge>, p: Uuid, parents: set<Uuid>, children: set<Uuid>, w: seq<Uuid>)
      returns (q: Uuid)
    requires Absent(edges, p) && p !in parents && p !in children
    requires IsWalk(WithVertex(edges, p, parents, children), w) && w[0] != p && w[|w| - 1] == p
    ensures q in parents && Reaches(edges, w[0], q)
    decreases |w|
  {
    var big := WithVertex(edges, p, parents, children);
    if i :| 0 < i < |w| - 1 && w[i] == p {
      WalkSlice(big, w, 0, i + 1);
      q := FirstArrival(edges, p, parents, children, w[..i + 1]);
    } else {
      q := w[|w| - 2];
      assert Edge(q, p) in big;
      var head := w[..|w| - 1];
      forall i, j | 0 <= i < |head| && j == i + 1 && j < |head| ensures Edge(head[i], head[j]) in edges {
        assert Edge(w[i], w[j]) in big;
      }
      assert WalkFromTo(edges, head, w[0], q);
    }
  }

  lemma CycleThroughVertex(edges: set<Edge>, p: Uuid, parents: set<Uuid>, children: set<Uuid>, w: seq<Uuid>)
    requires Acyclic(edges) && Absent(edges, p) && p !in parents && p !in children
    requires IsCycle(WithVertex(edges, p, parents, children), w)
    ensures exists q, c :: q in parents && c in children && Reaches(edges, c, q)
  {
    var big := WithVertex(edges, p, parents, children);
    if i :| 0 <= i < |w| - 1 && w[i] == p {
      var c := w[i + 1];
      assert Edge(w[i], c) in big;
      WalkSlice(big, w, i + 1, |w|);
      var round := w[i + 1..];
      if i > 0 {
        WalkSlice(big, w, 1, i + 1);
        assert Edge(w[0], w[1]) in big;
        WalkConcat(big, w[i + 1..], w[1..i + 1]);
        round := w[i + 1..] + w[1..i + 1];
      }
      var q := FirstArrival(edges, p, parents, children, round);
    } else {
      assert w[|w| - 1] == w[0] != p;
      assert !IsCycle(edges, w);
      forall i, j | 0 <= i < |w| && j == i + 1 && j < |w| ensures Edge(w[i], w[j]) in edges {
        assert Edge(w[i], w[j]) in big;
      }
    }
  }

  lemma WithVertexAcyclic(edges: set<Edge>, p: Uuid, parents: set<Uuid>, children: set<Uuid>)
    requires Acyclic(edges) && Absent(edges, p) && p !in parents && p !in children
    ensures Acyclic(WithVertex(edges, p, parents, children)) <==>
      forall q, c :: q in parents && c in children ==> !Reaches(edges, c, q)
  {
    var big := WithVertex(edges, p, parents, children);
    if q, c :| q in parents && c in children && Reaches(edges, c, q) {
      var w :| WalkFromTo(edges, w, c, q);
      WalkSubset(edges, big, w);
      assert Edge(q, p) in big && Edge(p, c) in big;
      WalkConcat(big, w, [p]);
      WalkConcat(big, [p], w + [p]);
      assert IsCycle(big, [p] + (w + [p]));
    } else {
      forall w ensures !IsCycle(big, w) {
        if IsCycle(big, w) {
          CycleThroughVertex(edges, p, parents, children, w);
        }
      }
    }
  }
}
