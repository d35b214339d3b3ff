/** The lines of the visual exports: elbows from parents to children and bars between partners. */
module SceneEdges {
  import opened Graphs
  import opened Manifest
  import opened AdjacencyLists
  import opened Generations
  import opened Ordering
  import opened Arrangements
  import opened Scene

  type Nodes = map<Uuid, Card>

  ghost predicate NodesOf(nodes: Nodes, canvas: Canvas, persons: set<Uuid>) {
    nodes.Keys == persons && forall p :: p in nodes ==> nodes[p] in canvas.cards && nodes[p].id == p
  }

  // ---- Parents ----

  // By child, and by parent among the parents of one child.
  predicate PairBefore(a: Edge, b: Edge) {
    a.child < b.child || (a.child == b.child && a.parent < b.parent)
  }

  ghost predicate PairsSorted(pairs: seq<Edge>) {
    forall i, j :: 0 <= i < j < |pairs| ==> PairBefore(pairs[i], pairs[j])
  }

  // One line for each pair, in this order, between the cards of its persons.
  ghost predicate DrawsPairs(edges: seq<seq<Point>>, pairs: seq<Edge>, nodes: Nodes) {
    && |edges| == |pairs| && PairsSorted(pairs)
    && (forall i :: 0 <= i < |pairs| ==>
          pairs[i].parent in nodes && pairs[i].child in nodes && edges[i] == Elbow(nodes[pairs[i].parent], nodes[pairs[i].child]))
  }

  lemma PairAppended(edges: seq<seq<Point>>, pairs: seq<Edge>, nodes: Nodes, e: Edge)
    requires DrawsPairs(edges, pairs, nodes) && e.parent in nodes && e.child in nodes
    requires forall d :: d in pairs ==> PairBefore(d, e)
    ensures DrawsPairs(edges + [Elbow(nodes[e.parent], nodes[e.child])], pairs + [e], nodes)
    ensures forall d :: d in pairs + [e] <==> d in pairs || d == e
  {
    forall i | 0 <= i < |pairs| ensures PairBefore(pairs[i], e) {
      assert pairs[i] in pairs;
    }
  }

  // The pairs that have been drawn before the i-th parent of c.
  ghost predicate PairsUntil(pairs: seq<Edge>, before: seq<Edge>, c: Uuid, parentIDs: seq<Uuid>, nodes: Nodes, i: nat)
    requires i <= |parentIDs|
  {
    forall e :: e in pairs <==> e in before || (e.child == c && e.parent in parentIDs[..i] && e.parent in nodes)
  }

  // Adds the lines of one child to those of the children before it.
  method ElbowsOf(edges0: seq<seq<Point>>, pairs0: seq<Edge>, parentIDs: seq<Uuid>, nodes: Nodes, c: Uuid)
      returns (edges: seq<seq<Point>>, pairs: seq<Edge>)
    requires DrawsPairs(edges0, pairs0, nodes) && c in nodes && SortedBy(map[], parentIDs)
    requires forall e :: e in pairs0 ==> e.child < c
    ensures DrawsPairs(edges, pairs, nodes) && PairsUntil(pairs, pairs0, c, parentIDs, nodes, |parentIDs|)
  {
    edges, pairs := edges0, pairs0;
    for i := 0 to |parentIDs|
      invariant DrawsPairs(edges, pairs, nodes) && PairsUntil(pairs, pairs0, c, parentIDs, nodes, i)
    {
      var p := parentIDs[i];
      assert parentIDs[..i + 1] == parentIDs[..i] + [p];
      if p in nodes {
        forall d | d in pairs ensures PairBefore(d, Edge(p, c)) {
          if d !in pairs0 {
            var k :| 0 <= k < i && parentIDs[k] == d.parent;
          }
        }
        PairAppended(edges, pairs, nodes, Edge(p, c));
        edges := edges + [Elbow(nodes[p], nodes[c])];
        pairs := pairs + [Edge(p, c)];
      }
    }
  }

  // The drawn pairs are those of the lists whose persons have cards.
  ghost predicate PairsOf(pairs: seq<Edge>, parents: Lists, nodes: Nodes, done: set<Uuid>) {
    forall e :: e in pairs <==>
      e.child in done && e.child in nodes && e.parent in nodes && e.parent in ChildrenOf(parents, e.child)
  }

  // Children in ascending order, and the parents of each of them.
  method BuildParentEdges(parents: Lists, nodes: Nodes) returns (edges: seq<seq<Point>>, pairs: seq<Edge>)
    requires DistinctLists(parents)
    ensures DrawsPairs(edges, pairs, nodes) && PairsOf(pairs, parents, nodes, parents.Keys)
  {
    edges, pairs := [], [];
    var childIDs := SortedIds(parents.Keys);
    ghost var done: set<Uuid> := {};
    for i := 0 to |childIDs|
      invariant DrawsPairs(edges, pairs, nodes) && PairsOf(pairs, parents, nodes, done)
      invariant forall c :: c in done <==> c in childIDs[..i]
    {
      var c := childIDs[i];
      assert childIDs[..i + 1] == childIDs[..i] + [c];
      forall e | e in pairs ensures e.child < c {
        var k :| 0 <= k < i && childIDs[k] == e.child;
      }
      assert c in parents && Distinct(parents[c]);
      var parentIDs := Sort(map[], parents[c]);
      if c in nodes {
        assert parentIDs[..|parentIDs|] == parentIDs;
        edges, pairs := ElbowsOf(edges, pairs, parentIDs, nodes, c);
      }
      done := done + {c};
    }
    assert childIDs[..|childIDs|] == childIDs;
    assert done == parents.Keys;
  }

  // The order of the lines does not depend on how the lists were collected.
  lemma PairsUnique(a: seq<Edge>, b: seq<Edge>)
    requires PairsSorted(a) && PairsSorted(b) && forall e :: e in a <==> e in b
    ensures a == b
  {
    AscendingUnique(PairBefore, a, b);
  }

  // ---- Partners ----

  // Top to bottom, then left to right.
  predicate NotAfter(a: Card, b: Card) {
    a.y < b.y || (a.y == b.y && a.x <= b.x)
  }

  // From the nearer side of one card to the nearer side of the other, in the middle of their heights.
  function Bar(left: Card, right: Card): seq<Point> {
    var straight := left.x + NODE_WIDTH <= right.x;
    var start := Point(if straight then left.x + NODE_WIDTH else left.x, left.y + NODE_HEIGHT / 2.0);
    var end := Point(if straight then right.x else right.x + NODE_WIDTH, right.y + NODE_HEIGHT / 2.0);
    var middleX := start.x + (end.x - start.x) / 2.0;
    [start, Point(middleX, start.y), Point(middleX, end.y), end]
  }

  ghost predicate Placed(ids: seq<Uuid>, nodes: Nodes) {
    forall v :: v in ids ==> v in nodes
  }

  ghost predicate InPlace(sorted: seq<Uuid>, nodes: Nodes)
    requires Placed(sorted, nodes)
  {
    forall i, j :: 0 <= i < j < |sorted| ==> NotAfter(nodes[sorted[i]], nodes[sorted[j]])
  }

  lemma InsertedMembers(s: seq<Uuid>, v: Uuid, k: nat)
    requires k <= |s|
    ensures var r := s[..k] + [v] + s[k..];
      r[k] == v && (forall i :: 0 <= i < |s| ==> s[i] == r[if i < k then i else i + 1]) && forall x :: x in r <==> x in s || x == v
  {
    var r := s[..k] + [v] + s[k..];
    assert forall i :: 0 <= i < |s| ==> s[i] == r[if i < k then i else i + 1];
  }

  lemma StaysAfter(a: Card, b: Card, c: Card)
    ensures NotAfter(a, b) || NotAfter(b, a)
    ensures NotAfter(a, b) && NotAfter(b, c) ==> NotAfter(a, c)
  {
  }

  lemma InsertInPlace(s: seq<Uuid>, nodes: Nodes, v: Uuid, k: nat)
    requires Placed(s, nodes) && v in nodes && InPlace(s, nodes) && k <= |s|
    requires forall j :: 0 <= j < k ==> NotAfter(nodes[s[j]], nodes[v])
    requires k < |s| ==> !NotAfter(nodes[s[k]], nodes[v])
    ensures var r := s[..k] + [v] + s[k..];
      Placed(r, nodes) && InPlace(r, nodes) && forall x :: x in r <==> x in s || x == v
  {
    var r := s[..k] + [v] + s[k..];
    InsertedMembers(s, v, k);
    forall j | k <= j < |s| ensures NotAfter(nodes[v], nodes[s[j]]) {
      StaysAfter(nodes[v], nodes[s[k]], nodes[s[j]]);
    }
    forall i, j | 0 <= i < j < |r| ensures NotAfter(nodes[r[i]], nodes[r[j]]) {
      if i < k < j {
        StaysAfter(nodes[r[i]], nodes[v], nodes[r[j]]);
      }
    }
  }

  lemma InsertDistinct(s: seq<Uuid>, v: Uuid, k: nat)
    requires Distinct(s) && v !in s && k <= |s|
    ensures Distinct(s[..k] + [v] + s[k..])
  {
    var r := s[..k] + [v] + s[k..];
    forall i, j | 0 <= i < j < |r| ensures r[i] != r[j] {
      var a, b := if i < k then i else i - 1, if j < k then j else j - 1;
      assert i != k ==> r[i] == s[a] && s[a] in s;
      assert j != k ==> r[j] == s[b] && s[b] in s;
    }
  }

  method SortByPlace(ids: seq<Uuid>, nodes: Nodes) returns (sorted: seq<Uuid>)
    requires Placed(ids, nodes)
    ensures |sorted| == |ids| && SameMembers(sorted, ids) && Placed(sorted, nodes) && InPlace(sorted, nodes)
    ensures Distinct(ids) ==> Distinct(sorted)
  {
    sorted := [];
    for i := 0 to |ids|
      invariant |sorted| == i && Placed(sorted, nodes) && InPlace(sorted, nodes)
      invariant forall v :: v in sorted <==> v in ids[..i]
      invariant Distinct(ids) ==> Distinct(sorted)
    {
      var v := ids[i];
      assert v in ids && ids[..i + 1] == ids[..i] + [v];
      var k := 0;
      while k < |sorted| && NotAfter(nodes[sorted[k]], nodes[v])
        invariant 0 <= k <= |sorted|
        invariant forall j :: 0 <= j < k ==> NotAfter(nodes[sorted[j]], nodes[v])
      {
        k := k + 1;
      }
      InsertInPlace(sorted, nodes, v, k);
      if Distinct(ids) {
        assert v !in ids[..i];
        InsertDistinct(sorted, v, k);
      }
      sorted := sorted[..k] + [v] + sorted[k..];
    }
    assert ids[..|ids|] == ids;
  }

  function BarAt(sorted: seq<Uuid>, nodes: Nodes, i: nat): seq<Point>
    requires i + 1 < |sorted| && forall v :: v in sorted ==> v in nodes
  {
    Bar(nodes[sorted[i]], nodes[sorted[i + 1]])
  }

  // The bars between the neighbours of one union, from first to last.
  function Bars(sorted: seq<Uuid>, nodes: Nodes): seq<seq<Point>>
    requires forall v :: v in sorted ==> v in nodes
  {
    if sorted == [] then [] else
      seq(|sorted| - 1, i requires 0 <= i < |sorted| - 1 => BarAt(sorted, nodes, i))
  }

  method BarsOf(sorted: seq<Uuid>, nodes: Nodes) returns (edges: seq<seq<Point>>)
    requires Placed(sorted, nodes)
    ensures edges == Bars(sorted, nodes)
  {
    edges := [];
    if sorted == [] {
      return;
    }
    for index := 1 to |sorted|
      invariant |edges| == index - 1
      invariant forall k :: 0 <= k < |edges| ==> edges[k] == BarAt(sorted, nodes, k)
    {
      edges := edges + [BarAt(sorted, nodes, index - 1)];
    }
  }

  ghost predicate AllPlaced(orders: Lists, nodes: Nodes) {
    forall u :: u in orders ==> Placed(orders[u], nodes)
  }

  // The bars of these unions, one union after the other.
  ghost function UnionBars(ids: seq<Uuid>, orders: Lists, nodes: Nodes): seq<seq<Point>>
    requires AllPlaced(orders, nodes)
  {
    if ids == [] then [] else
      UnionBars(ids[..|ids| - 1], orders, nodes) + Bars(ChildrenOf(orders, ids[|ids| - 1]), nodes)
  }

  lemma {:induction false} OtherBarsStay(ids: seq<Uuid>, orders: Lists, more: Lists, nodes: Nodes)
    requires AllPlaced(orders, nodes) && AllPlaced(more, nodes)
    requires forall u :: u in ids ==> ChildrenOf(more, u) == ChildrenOf(orders, u)
    ensures UnionBars(ids, more, nodes) == UnionBars(ids, orders, nodes)
  {
    if ids != [] {
      assert ids[|ids| - 1] in ids;
      OtherBarsStay(ids[..|ids| - 1], orders, more, nodes);
    }
  }

  lemma UnionAppended(ids: seq<Uuid>, orders: Lists, nodes: Nodes, u: Uuid, sorted: seq<Uuid>)
    requires AllPlaced(orders, nodes) && Placed(sorted, nodes) && u !in ids
    ensures AllPlaced(orders[u := sorted], nodes)
    ensures UnionBars(ids + [u], orders[u := sorted], nodes) == UnionBars(ids, orders, nodes) + Bars(sorted, nodes)
  {
    OtherBarsStay(ids, orders, orders[u := sorted], nodes);
    assert (ids + [u])[..|ids|] == ids;
  }

  // The list of a union, put into drawing order.
  ghost predicate Arranges(sorted: seq<Uuid>, list: seq<Uuid>, nodes: Nodes) {
    && SameMembers(sorted, list) && |sorted| == |list| && (Distinct(list) ==> Distinct(sorted))
    && Placed(sorted, nodes) && InPlace(sorted, nodes)
  }

  // The unions of `ids` have been put into drawing order.
  ghost predicate OrdersThese(orders: Lists, memberLists: Lists, nodes: Nodes, ids: seq<Uuid>) {
    && (forall u :: u in orders <==> u in ids)
    && (forall u :: u in orders ==> u in memberLists && Arranges(orders[u], memberLists[u], nodes))
  }

  lemma OrdersOneMore(orders: Lists, memberLists: Lists, nodes: Nodes, ids: seq<Uuid>, u: Uuid, sorted: seq<Uuid>)
    requires OrdersThese(orders, memberLists, nodes, ids) && u in memberLists && Arranges(sorted, memberLists[u], nodes)
    ensures OrdersThese(orders[u := sorted], memberLists, nodes, ids + [u])
  {
  }

  // These unions have been drawn.
  ghost predicate UnionsDrawn(edges: seq<seq<Point>>, orders: Lists, memberLists: Lists, nodes: Nodes, ids: seq<Uuid>) {
    OrdersThese(orders, memberLists, nodes, ids) && AllPlaced(orders, nodes) && edges == UnionBars(ids, orders, nodes)
  }

  method DrawUnion(edges0: seq<seq<Point>>, orders0: Lists, list: seq<Uuid>, nodes: Nodes, u: Uuid,
                   ghost memberLists: Lists, ghost ids: seq<Uuid>)
      returns (edges: seq<seq<Point>>, orders: Lists)
    requires UnionsDrawn(edges0, orders0, memberLists, nodes, ids)
    requires u in memberLists && memberLists[u] == list && Placed(list, nodes) && u !in ids
    ensures UnionsDrawn(edges, orders, memberLists, nodes, ids + [u])
  {
    var sorted := SortByPlace(list, nodes);
    var bars := BarsOf(sorted, nodes);
    UnionAppended(ids, orders0, nodes, u, sorted);
    OrdersOneMore(orders0, memberLists, nodes, ids, u, sorted);
    edges := edges0 + bars;
    orders := orders0[u := sorted];
  }

  lemma NothingDrawn(memberLists: Lists, nodes: Nodes)
    ensures UnionsDrawn([], map[], memberLists, nodes, [])
  {
  }

  // The next union can be drawn.
  lemma NextUnion(memberLists: Lists, nodes: Nodes, ids: seq<Uuid>, i: nat)
    requires AllPlaced(memberLists, nodes) && Distinct(ids) && (forall u :: u in ids ==> u in memberLists) && i < |ids|
    ensures ids[i] in memberLists && Placed(memberLists[ids[i]], nodes) && ids[i] !in ids[..i]
    ensures ids[..i + 1] == ids[..i] + [ids[i]]
  {
    assert ids[i] in ids;
  }

  method DrawUnions(memberLists: Lists, nodes: Nodes, ids: seq<Uuid>) returns (edges: seq<seq<Point>>, orders: Lists)
    requires AllPlaced(memberLists, nodes) && Distinct(ids) && forall u :: u in ids ==> u in memberLists
    ensures UnionsDrawn(edges, orders, memberLists, nodes, ids)
  {
    edges, orders := [], map[];
    NothingDrawn(memberLists, nodes);
    for i := 0 to |ids|
      invariant UnionsDrawn(edges, orders, memberLists, nodes, ids[..i])
    {
      NextUnion(memberLists, nodes, ids, i);
      edges, orders := DrawUnion(edges, orders, memberLists[ids[i]], nodes, ids[i], memberLists, ids[..i]);
    }
    assert ids[..|ids|] == ids;
  }

  // Unions in ascending order; the member lists are left in drawing order.
  method BuildUnionEdges(memberLists: Lists, nodes: Nodes) returns (edges: seq<seq<Point>>, ids: seq<Uuid>, orders: Lists)
    requires AllPlaced(memberLists, nodes)
    ensures SortedBy(map[], ids) && (forall u :: u in ids <==> u in memberLists) && orders.Keys == memberLists.Keys
    ensures forall u :: u in memberLists ==> Arranges(orders[u], memberLists[u], nodes)
    ensures AllPlaced(orders, nodes) && edges == UnionBars(ids, orders, nodes)
  {
    ids := SortedIds(memberLists.Keys);
    edges, orders := DrawUnions(memberLists, nodes, ids);
  }

  // ---- What the lines look like ----

  lemma NodesApart(nodes: Nodes, persons: set<Uuid>, relations: seq<Relation>, unions: seq<Union>, members: seq<UnionMember>,
                   names: map<Uuid, int>, ranks: Ranks, canvas: Canvas, a: Uuid, b: Uuid)
    requires Laid(persons, relations, unions, members, names, ranks, canvas) && NodesOf(nodes, canvas, persons)
    requires a in persons && b in persons && a != b
    ensures Apart(nodes[a], nodes[b])
  {
    SceneGeometry(persons, relations, unions, members, names, ranks, canvas);
    var i :| 0 <= i < |canvas.cards| && canvas.cards[i] == nodes[a];
    var j :| 0 <= j < |canvas.cards| && canvas.cards[j] == nodes[b];
    assert Apart(canvas.cards[if i < j then i else j], canvas.cards[if i < j then j else i]);
  }

  // The bars of a union whose members are listed once are straight and level, run left to right from card to card,
  // and are at least as long as the gap between two cards: the branch that swaps the ends is never taken.
  lemma BarsAreLevel(nodes: Nodes, persons: set<Uuid>, relations: seq<Relation>, unions: seq<Union>, members: seq<UnionMember>,
                     names: map<Uuid, int>, ranks: Ranks, canvas: Canvas, u: Uuid, sorted: seq<Uuid>, i: nat)
    requires Laid(persons, relations, unions, members, names, ranks, canvas) && NodesOf(nodes, canvas, persons)
    requires forall a :: a in sorted ==> Partner(unions, members, persons, u, a)
    requires Distinct(sorted) && Placed(sorted, nodes) && InPlace(sorted, nodes) && 0 < i < |sorted|
    ensures var left, right := nodes[sorted[i - 1]], nodes[sorted[i]];
      var bar := Bar(left, right);
      && bar[0] == Point(left.x + NODE_WIDTH, left.y + NODE_HEIGHT / 2.0) && bar[3] == Point(right.x, bar[0].y)
      && bar[0].y == bar[1].y == bar[2].y && bar[0].x + HORIZONTAL_GAP <= bar[3].x
  {
    var a, b := sorted[i - 1], sorted[i];
    assert a in sorted && b in sorted;
    NodesApart(nodes, persons, relations, unions, members, names, ranks, canvas, a, b);
    SceneGeometry(persons, relations, unions, members, names, ranks, canvas);
    assert Partners(unions, members, persons, nodes[a].id, nodes[b].id);
    assert nodes[a].y == nodes[b].y && NotAfter(nodes[a], nodes[b]);
  }
}
