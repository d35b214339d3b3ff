/** The whole scene: the cards of the layout, a line for every active relation and a bar between partners. */
module ScenePicture {
  import opened Graphs
  import opened Manifest
  import opened AdjacencyLists
  import opened Generations
  import opened UnionAlignment
  import opened Ordering
  import opened Arrangements
  import opened Scene
  import opened SceneEdges

  datatype Lines = Lines(parentEdges: seq<seq<Point>>, unionEdges: seq<seq<Point>>)

  // The card of each person.
  method NodesByID(cards: seq<Card>) returns (nodes: Nodes)
    requires forall i, j :: 0 <= i < j < |cards| ==> cards[i].id != cards[j].id
    ensures forall p :: p in nodes <==> exists c :: c in cards && c.id == p
    ensures forall c :: c in cards ==> c.id in nodes && nodes[c.id] == c
  {
    nodes := map[];
    for i := 0 to |cards|
      invariant forall p :: p in nodes <==> exists c :: c in cards[..i] && c.id == p
      invariant forall k :: 0 <= k < i ==> cards[k].id in nodes && nodes[cards[k].id] == cards[k]
    {
      ghost var before := nodes;
      assert cards[..i + 1] == cards[..i] + [cards[i]];
      nodes := nodes[cards[i].id := cards[i]];
      forall p ensures p in nodes <==> exists c :: c in cards[..i + 1] && c.id == p {
        if p in before {
          var c :| c in cards[..i] && c.id == p;
          assert c in cards[..i + 1];
        }
        assert cards[i] in cards[..i + 1];
      }
    }
    assert cards[..|cards|] == cards;
  }

  // Exactly the active relations are drawn, each once, by child and parent.
  ghost predicate DrawsRelations(edges: seq<seq<Point>>, persons: set<Uuid>, relations: seq<Relation>, nodes: Nodes) {
    exists pairs :: DrawsPairs(edges, pairs, nodes) && forall e :: e in pairs <==> e in ActiveEdges(relations, persons)
  }

  // The members of a union in drawing order.
  ghost predicate OrdersMembers(sorted: seq<Uuid>, unions: seq<Union>, members: seq<UnionMember>, persons: set<Uuid>,
                                nodes: Nodes, u: Uuid)
  {
    && (forall a :: a in sorted <==> Partner(unions, members, persons, u, a))
    && Placed(sorted, nodes) && InPlace(sorted, nodes) && (MembersOnce(members) ==> Distinct(sorted))
  }

  ghost predicate HasPartners(unions: seq<Union>, members: seq<UnionMember>, persons: set<Uuid>, u: Uuid) {
    exists a :: Partner(unions, members, persons, u, a)
  }

  // Union after union, a bar between any two neighbours among its members and nothing else.
  ghost predicate DrawsUnions(edges: seq<seq<Point>>, unions: seq<Union>, members: seq<UnionMember>, persons: set<Uuid>,
                              nodes: Nodes, ids: seq<Uuid>, orders: Lists)
  {
    && SortedBy(map[], ids) && (forall u :: u in ids <==> HasPartners(unions, members, persons, u))
    && (forall u :: u in ids <==> u in orders)
    && (forall u :: u in orders ==> OrdersMembers(orders[u], unions, members, persons, nodes, u))
    && AllPlaced(orders, nodes) && edges == UnionBars(ids, orders, nodes)
  }

  ghost predicate Drawing(lines: Lines, persons: set<Uuid>, relations: seq<Relation>, unions: seq<Union>,
                          members: seq<UnionMember>, canvas: Canvas)
  {
    exists nodes, ids, orders ::
      && NodesOf(nodes, canvas, persons)
      && DrawsRelations(lines.parentEdges, persons, relations, nodes)
      && DrawsUnions(lines.unionEdges, unions, members, persons, nodes, ids, orders)
  }

  lemma RelationsDrawn(edges: seq<seq<Point>>, pairs: seq<Edge>, persons: set<Uuid>, relations: seq<Relation>,
                       parents: Lists, nodes: Nodes)
    requires ParentsHold(parents, ActiveEdges(relations, persons)) && nodes.Keys == persons
    requires DrawsPairs(edges, pairs, nodes) && PairsOf(pairs, parents, nodes, parents.Keys)
    ensures DrawsRelations(edges, persons, relations, nodes)
  {
    forall e ensures e in pairs <==> e in ActiveEdges(relations, persons) {
      assert e.parent in ChildrenOf(parents, e.child) <==> Edge(e.parent, e.child) in ActiveEdges(relations, persons);
    }
  }

  lemma UnionsDrawn(edges: seq<seq<Point>>, unions: seq<Union>, members: seq<UnionMember>, persons: set<Uuid>, nodes: Nodes,
                    memberLists: Lists, ids: seq<Uuid>, orders: Lists)
    requires forall u, a :: a in ChildrenOf(memberLists, u) <==> Partner(unions, members, persons, u, a)
    requires (MembersOnce(members) ==> DistinctLists(memberLists)) && forall u :: u in memberLists ==> memberLists[u] != []
    requires SortedBy(map[], ids) && (forall u :: u in ids <==> u in memberLists) && orders.Keys == memberLists.Keys
    requires forall u :: u in memberLists ==> Arranges(orders[u], memberLists[u], nodes)
    requires AllPlaced(orders, nodes) && edges == UnionBars(ids, orders, nodes)
    ensures DrawsUnions(edges, unions, members, persons, nodes, ids, orders)
  {
    forall u | u in orders ensures OrdersMembers(orders[u], unions, members, persons, nodes, u) {
      assert forall a :: a in ChildrenOf(memberLists, u) <==> Partner(unions, members, persons, u, a);
    }
    forall u ensures u in ids <==> HasPartners(unions, members, persons, u) {
      if u in memberLists {
        assert memberLists[u][0] in ChildrenOf(memberLists, u);
      }
      if a :| Partner(unions, members, persons, u, a) {
        assert a in ChildrenOf(memberLists, u);
      }
    }
  }

  method DrawLines(persons: set<Uuid>, relations: seq<Relation>, unions: seq<Union>, members: seq<UnionMember>,
                   names: map<Uuid, int>, ghost ranks: Ranks, canvas: Canvas, parents: Lists, memberLists: Unions)
      returns (lines: Lines)
    requires Collected(persons, relations, unions, members, parents, memberLists)
    requires Laid(persons, relations, unions, members, names, ranks, canvas)
    ensures Drawing(lines, persons, relations, unions, members, canvas)
  {
    SceneGeometry(persons, relations, unions, members, names, ranks, canvas);
    var nodes := NodesByID(canvas.cards);
    assert NodesOf(nodes, canvas, persons);
    var parentEdges, pairs := BuildParentEdges(parents, nodes);
    RelationsDrawn(parentEdges, pairs, persons, relations, parents, nodes);
    forall u, a | u in memberLists && a in memberLists[u] ensures a in nodes {
      assert a in ChildrenOf(memberLists, u);
    }
    var unionEdges, ids, orders := BuildUnionEdges(memberLists, nodes);
    UnionsDrawn(unionEdges, unions, members, persons, nodes, memberLists, ids, orders);
    assert DrawsUnions(unionEdges, unions, members, persons, nodes, ids, orders);
    lines := Lines(parentEdges, unionEdges);
  }

  method BuildScene(personRows: seq<Person>, relations: seq<Relation>, unions: seq<Union>, members: seq<UnionMember>,
                    names: map<Uuid, int>, maxNodes: int, maxPixels: int)
      returns (outcome: Outcome, lines: Lines, ghost ranks: Ranks)
    ensures outcome.InvalidExport? <==> maxNodes < 1 || maxPixels < 1
    ensures !outcome.InvalidExport? && |ActiveIds(personRows)| > maxNodes ==> outcome.TooLarge?
    ensures !outcome.InvalidExport? && |ActiveIds(personRows)| <= maxNodes ==>
      (outcome.SourceInvalid? <==> !Consistent(ActiveIds(personRows), relations, unions, members))
    ensures outcome.Drawn? ==>
      && Laid(ActiveIds(personRows), relations, unions, members, names, ranks, outcome.canvas)
      && FitsLimits(outcome.canvas.width, outcome.canvas.height, maxPixels)
      && Drawing(lines, ActiveIds(personRows), relations, unions, members, outcome.canvas)
    ensures outcome.TooLarge? ==>
      || |ActiveIds(personRows)| > maxNodes
      || exists c :: Laid(ActiveIds(personRows), relations, unions, members, names, ranks, c) &&
                     !FitsLimits(c.width, c.height, maxPixels)
  {
    lines, ranks := Lines([], []), map[];
    if maxNodes < 1 || maxPixels < 1 {
      return InvalidExport, lines, ranks;
    }
    var persons := CollectPersons(personRows);
    if |persons| > maxNodes {
      return TooLarge, lines, ranks;
    }
    var parents, memberLists;
    outcome, parents, memberLists, ranks := LayOut(persons, relations, unions, members, names, maxPixels);
    if outcome.Drawn? {
      lines := DrawLines(persons, relations, unions, members, names, ranks, outcome.canvas, parents, memberLists);
    }
  }

  // ---- The manifest determines the lines ----

  lemma NodesUnique(m: Nodes, n: Nodes, canvas: Canvas, persons: set<Uuid>)
    requires NodesOf(m, canvas, persons) && NodesOf(n, canvas, persons)
    requires forall i, j :: 0 <= i < j < |canvas.cards| ==> canvas.cards[i].id != canvas.cards[j].id
    ensures m == n
  {
    forall p | p in m ensures m[p] == n[p] {
      var i :| 0 <= i < |canvas.cards| && canvas.cards[i] == m[p];
      var j :| 0 <= j < |canvas.cards| && canvas.cards[j] == n[p];
    }
  }

  lemma FirstInPlace(sorted: seq<Uuid>, nodes: Nodes, v: Uuid)
    requires Placed(sorted, nodes) && InPlace(sorted, nodes) && v in sorted
    ensures v == sorted[0] || NotAfter(nodes[sorted[0]], nodes[v])
  {
    var i :| 0 <= i < |sorted| && sorted[i] == v;
  }

  lemma ApartMeansOrdered(a: Card, b: Card)
    ensures Apart(a, b) ==> !NotAfter(a, b) || !NotAfter(b, a)
  {
  }

  // Cards that have different places have one order.
  lemma {:induction false} PlacesUnique(a: seq<Uuid>, b: seq<Uuid>, nodes: Nodes)
    requires Placed(a, nodes) && Placed(b, nodes) && InPlace(a, nodes) && InPlace(b, nodes)
    requires Distinct(a) && Distinct(b) && SameMembers(a, b)
    requires forall v, w :: v in a && w in a && v != w ==> Apart(nodes[v], nodes[w])
    ensures a == b
  {
    if a == [] || b == [] {
      NonEmptyHasMember(a);
      NonEmptyHasMember(b);
    } else {
      assert a[0] in b && b[0] in a;
      FirstInPlace(a, nodes, b[0]);
      FirstInPlace(b, nodes, a[0]);
      ApartMeansOrdered(nodes[a[0]], nodes[b[0]]);
      assert a[0] == b[0];
      forall v ensures v in a[1..] <==> v in b[1..] {
        assert v in a[1..] <==> v in a && v != a[0];
        assert v in b[1..] <==> v in b && v != b[0];
      }
      PlacesUnique(a[1..], b[1..], nodes);
    }
  }

  lemma CardsApart(nodes: Nodes, persons: set<Uuid>, canvas: Canvas)
    requires NodesOf(nodes, canvas, persons)
    requires forall i, j :: 0 <= i < j < |canvas.cards| ==> Apart(canvas.cards[i], canvas.cards[j])
    ensures forall v, w :: v in nodes && w in nodes && v != w ==> Apart(nodes[v], nodes[w])
  {
    forall v, w | v in nodes && w in nodes && v != w ensures Apart(nodes[v], nodes[w]) {
      var i :| 0 <= i < |canvas.cards| && canvas.cards[i] == nodes[v];
      var j :| 0 <= j < |canvas.cards| && canvas.cards[j] == nodes[w];
      assert Apart(canvas.cards[if i < j then i else j], canvas.cards[if i < j then j else i]);
    }
  }

  lemma MemberOrderUnique(a: seq<Uuid>, b: seq<Uuid>, unions: seq<Union>, members: seq<UnionMember>, persons: set<Uuid>,
                          nodes: Nodes, u: Uuid)
    requires MembersOnce(members)
    requires OrdersMembers(a, unions, members, persons, nodes, u) && OrdersMembers(b, unions, members, persons, nodes, u)
    requires forall v, w :: v in nodes && w in nodes && v != w ==> Apart(nodes[v], nodes[w])
    ensures a == b
  {
    PlacesUnique(a, b, nodes);
  }

  lemma UnionLinesUnique(unions: seq<Union>, members: seq<UnionMember>, persons: set<Uuid>, nodes: Nodes,
                         e: seq<seq<Point>>, ids: seq<Uuid>, orders: Lists, f: seq<seq<Point>>, jds: seq<Uuid>, others: Lists)
    requires MembersOnce(members)
    requires DrawsUnions(e, unions, members, persons, nodes, ids, orders)
    requires DrawsUnions(f, unions, members, persons, nodes, jds, others)
    requires forall v, w :: v in nodes && w in nodes && v != w ==> Apart(nodes[v], nodes[w])
    ensures e == f
  {
    SortedUnique(map[], ids, jds);
    forall u | u in ids ensures ChildrenOf(orders, u) == ChildrenOf(others, u) {
      MemberOrderUnique(orders[u], others[u], unions, members, persons, nodes, u);
    }
    OtherBarsStay(ids, others, orders, nodes);
  }

  // No map iteration order shows in the lines: two drawings of one manifest on one canvas are the same, provided
  // nobody is entered into a union twice.
  lemma LinesUnique(persons: set<Uuid>, relations: seq<Relation>, unions: seq<Union>, members: seq<UnionMember>,
                    names: map<Uuid, int>, ranks: Ranks, canvas: Canvas, k: Lines, l: Lines)
    requires Laid(persons, relations, unions, members, names, ranks, canvas) && MembersOnce(members)
    requires Drawing(k, persons, relations, unions, members, canvas) && Drawing(l, persons, relations, unions, members, canvas)
    ensures k == l
  {
    SceneGeometry(persons, relations, unions, members, names, ranks, canvas);
    var nodes, ids, orders :| NodesOf(nodes, canvas, persons) && DrawsRelations(k.parentEdges, persons, relations, nodes) &&
      DrawsUnions(k.unionEdges, unions, members, persons, nodes, ids, orders);
    var n, jds, others :| NodesOf(n, canvas, persons) && DrawsRelations(l.parentEdges, persons, relations, n) &&
      DrawsUnions(l.unionEdges, unions, members, persons, n, jds, others);
    NodesUnique(nodes, n, canvas, persons);
    var a :| DrawsPairs(k.parentEdges, a, nodes) && forall e :: e in a <==> e in ActiveEdges(relations, persons);
    var b :| DrawsPairs(l.parentEdges, b, nodes) && forall e :: e in b <==> e in ActiveEdges(relations, persons);
    PairsUnique(a, b);
    assert k.parentEdges == l.parentEdges;
    CardsApart(nodes, persons, canvas);
    UnionLinesUnique(unions, members, persons, nodes, k.unionEdges, ids, orders, l.unionEdges, jds, others);
  }
}
