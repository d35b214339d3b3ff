/** The generation layout of the visual exports: ranks, rows of cards and the canvas around them. */
module Scene {
  import opened Graphs
  import opened Manifest
  import opened AdjacencyLists
  import opened Generations
  import opened UnionAlignment
  import opened Ordering

  const MINIMUM_SCENE_WIDTH := 1200.0
  const HEADER_HEIGHT := 148.0
  const FOOTER_HEIGHT := 54.0
  const HORIZONTAL_MARGIN := 76.0
  const NODE_WIDTH := 232.0
  const NODE_HEIGHT := 98.0
  const HORIZONTAL_GAP := 54.0
  const VERTICAL_GAP := 112.0
  const MAXIMUM_SIDE := 32768.0

  datatype Card = Card(id: Uuid, x: real, y: real)

  datatype Canvas = Canvas(width: real, height: real, rows: seq<seq<Uuid>>, cards: seq<Card>)

  datatype Outcome = Drawn(canvas: Canvas) | InvalidExport | TooLarge | SourceInvalid

  // ---- Collecting the active graph ----

  ghost predicate DistinctLists(lists: Lists) {
    forall p :: p in lists ==> Distinct(lists[p])
  }

  lemma AppendDistinct(lists: Lists, p: Uuid, c: Uuid)
    requires DistinctLists(lists) && c !in ChildrenOf(lists, p)
    ensures DistinctLists(lists[p := ChildrenOf(lists, p) + [c]])
  {
  }

  lemma FreshChild(children: Lists, p: Uuid, c: Uuid)
    requires Edge(p, c) !in Edges(children)
    ensures c !in ChildrenOf(children, p)
  {
    forall i | 0 <= i < |ChildrenOf(children, p)| ensures ChildrenOf(children, p)[i] != c {
      assert Edge(p, children[p][i]) in Edges(children);
    }
  }

  // The lists of parents hold exactly these edges, each once.
  ghost predicate ParentsHold(parents: Lists, edges: set<Edge>) {
    DistinctLists(parents) && forall p, c :: p in ChildrenOf(parents, c) <==> Edge(p, c) in edges
  }

  lemma AddParent(parents: Lists, edges: set<Edge>, p: Uuid, c: Uuid)
    requires ParentsHold(parents, edges) && Edge(p, c) !in edges
    ensures ParentsHold(parents[c := ChildrenOf(parents, c) + [p]], edges + {Edge(p, c)})
  {
    var next := parents[c := ChildrenOf(parents, c) + [p]];
    forall q, d ensures q in ChildrenOf(next, d) <==> Edge(q, d) in edges + {Edge(p, c)} {
      assert q in ChildrenOf(parents, d) <==> Edge(q, d) in edges;
    }
    assert p !in ChildrenOf(parents, c);
  }

  // Relations of the same pair count once, whatever their types.
  method CollectGraph(persons: set<Uuid>, relations: seq<Relation>)
      returns (children: Lists, parents: Lists, indegrees: map<Uuid, int>)
    ensures Holds(children, indegrees, persons, ActiveEdges(relations, persons))
    ensures DistinctLists(children) && ParentsHold(parents, ActiveEdges(relations, persons))
  {
    children, parents := map[], map[];
    indegrees := map p | p in persons :: 0;
    var seen: set<Edge> := {};
    EmptyListsHaveNoSlots(children);
    for i := 0 to |relations|
      invariant Holds(children, indegrees, persons, seen)
      invariant seen == ActiveEdges(relations[..i], persons)
      invariant DistinctLists(children) && ParentsHold(parents, seen)
    {
      var r := relations[i];
      ActiveEdgesStep(relations, persons, i);
      if !r.deleted && r.parent in persons && r.child in persons && Edge(r.parent, r.child) !in seen {
        FreshChild(children, r.parent, r.child);
        AppendDistinct(children, r.parent, r.child);
        AddParent(parents, seen, r.parent, r.child);
        children, indegrees := AddChild(children, indegrees, r.parent, r.child, persons, seen);
        parents := parents[r.child := ChildrenOf(parents, r.child) + [r.parent]];
        seen := seen + {Edge(r.parent, r.child)};
      }
    }
    assert relations[..|relations|] == relations;
  }

  // A union is active when the last row with its ID is not deleted.
  ghost predicate ActiveUnion(unions: seq<Union>, u: Uuid) {
    exists i :: 0 <= i < |unions| && unions[i].id == u && !unions[i].deleted &&
      forall j :: i < j < |unions| ==> unions[j].id != u
  }

  ghost predicate Partner(unions: seq<Union>, members: seq<UnionMember>, persons: set<Uuid>, u: Uuid, a: Uuid) {
    ActiveUnion(unions, u) && a in persons && exists m :: m in members && m.unionId == u && m.personId == a
  }

  // a and b stand in the same active union.
  ghost predicate Partners(unions: seq<Union>, members: seq<UnionMember>, persons: set<Uuid>, a: Uuid, b: Uuid) {
    exists u :: Partner(unions, members, persons, u, a) && Partner(unions, members, persons, u, b)
  }

  lemma ActiveUnionStep(unions: seq<Union>, i: nat)
    requires i < |unions|
    ensures forall u :: ActiveUnion(unions[..i + 1], u) <==>
      if u == unions[i].id then !unions[i].deleted else ActiveUnion(unions[..i], u)
  {
    var before, after := unions[..i], unions[..i + 1];
    assert after == before + [unions[i]];
    forall u ensures ActiveUnion(after, u) <==> if u == unions[i].id then !unions[i].deleted else ActiveUnion(before, u) {
      if u == unions[i].id {
        if !unions[i].deleted {
          assert after[i].id == u;
        }
      } else {
        if ActiveUnion(before, u) {
          var k :| 0 <= k < |before| && before[k].id == u && !before[k].deleted &&
            forall j :: k < j < |before| ==> before[j].id != u;
          assert after[k].id == u;
        }
        if ActiveUnion(after, u) {
          var k :| 0 <= k < |after| && after[k].id == u && !after[k].deleted &&
            forall j :: k < j < |after| ==> after[j].id != u;
          assert before[k].id == u;
        }
      }
    }
  }

  method ActiveUnions(unions: seq<Union>) returns (active: map<Uuid, bool>)
    ensures forall u :: u in active && active[u] <==> ActiveUnion(unions, u)
  {
    active := map[];
    for i := 0 to |unions|
      invariant forall u :: u in active && active[u] <==> ActiveUnion(unions[..i], u)
    {
      ActiveUnionStep(unions, i);
      active := active[unions[i].id := !unions[i].deleted];
    }
    assert unions[..|unions|] == unions;
  }

  lemma PartnerStep(unions: seq<Union>, members: seq<UnionMember>, persons: set<Uuid>, i: nat, u: Uuid, a: Uuid)
    requires i < |members|
    ensures Partner(unions, members[..i + 1], persons, u, a) <==>
      || Partner(unions, members[..i], persons, u, a)
      || (ActiveUnion(unions, u) && a in persons && members[i].unionId == u && members[i].personId == a)
  {
    assert members[..i + 1] == members[..i] + [members[i]];
    assert members[i] in members[..i + 1];
  }

  // Nobody is entered into the same union twice.
  ghost predicate MembersOnce(members: seq<UnionMember>) {
    forall i, j :: 0 <= i < j < |members| ==> members[i].unionId != members[j].unionId || members[i].personId != members[j].personId
  }

  lemma MemberIsNew(unions: seq<Union>, members: seq<UnionMember>, persons: set<Uuid>, i: nat)
    requires i < |members| && MembersOnce(members)
    ensures !Partner(unions, members[..i], persons, members[i].unionId, members[i].personId)
  {
    forall m | m in members[..i] ensures m.unionId != members[i].unionId || m.personId != members[i].personId {
      var j :| 0 <= j < i && members[..i][j] == m;
    }
  }

  method ActiveUnionMembers(unions: seq<Union>, members: seq<UnionMember>, persons: set<Uuid>) returns (result: Unions)
    ensures forall u, a :: a in ChildrenOf(result, u) <==> Partner(unions, members, persons, u, a)
    ensures (MembersOnce(members) ==> DistinctLists(result)) && forall u :: u in result ==> result[u] != []
  {
    var active := ActiveUnions(unions);
    result := map[];
    for i := 0 to |members|
      invariant forall u, a :: a in ChildrenOf(result, u) <==> Partner(unions, members[..i], persons, u, a)
      invariant (MembersOnce(members) ==> DistinctLists(result)) && forall u :: u in result ==> result[u] != []
    {
      var m := members[i];
      ghost var before := result;
      if MembersOnce(members) {
        MemberIsNew(unions, members, persons, i);
        AppendDistinct(result, m.unionId, m.personId);
      }
      if m.unionId in active && active[m.unionId] && m.personId in persons {
        result := result[m.unionId := ChildrenOf(result, m.unionId) + [m.personId]];
      }
      forall u, a ensures a in ChildrenOf(result, u) <==> Partner(unions, members[..i + 1], persons, u, a) {
        PartnerStep(unions, members, persons, i, u, a);
        assert a in ChildrenOf(before, u) <==> Partner(unions, members[..i], persons, u, a);
        assert m.unionId in active && active[m.unionId] <==> ActiveUnion(unions, m.unionId);
      }
    }
    assert members[..|members|] == members;
  }

  // ---- Ranks ----

  // Every solution of the constraints lies above the longest ancestor chains.
  lemma {:induction false} ChainBoundsSolution(children: Lists, sigma: Ranks, w: seq<Uuid>)
    requires Descends(children, sigma) && IsWalk(Edges(children), w)
    ensures |w| <= RankOf(sigma, w[|w| - 1]) + 1
    decreases |w|
  {
    if |w| > 1 {
      WalkSlice(Edges(children), w, 0, |w| - 1);
      ChainBoundsSolution(children, sigma, w[..|w| - 1]);
      assert Edge(w[|w| - 2], w[|w| - 1]) in Edges(children);
    }
  }

  lemma RanksBelowSolution(children: Lists, persons: set<Uuid>, ranks: Ranks, sigma: Ranks)
    requires ranks.Keys <= persons
    requires forall v :: v in persons ==> LongestChain(Edges(children), v, RankOf(ranks, v))
    requires Descends(children, sigma)
    ensures Below(ranks, sigma)
  {
    forall v ensures RankOf(ranks, v) <= RankOf(sigma, v) {
      if v in persons {
        var w :| IsWalk(Edges(children), w) && w[|w| - 1] == v && |w| == RankOf(ranks, v) + 1;
        ChainBoundsSolution(children, sigma, w);
      }
    }
  }

  lemma SolutionMeansAcyclic(children: Lists, persons: set<Uuid>, sigma: Ranks)
    requires ListsWithin(children, persons) && Descends(children, sigma)
    ensures Acyclic(Edges(children))
  {
    var height: map<Uuid, int> := map v | v in persons :: RankOf(sigma, v);
    forall e | e in Edges(children)
      ensures e.parent in height && e.child in height && height[e.parent] < height[e.child]
    {
      EdgeWithin(children, persons, e);
    }
    HeightsMakeAcyclic(Edges(children), height);
  }

  // The least non-negative solution of all layout constraints.
  ghost predicate LeastSolution(children: Lists, unions: Unions, ranks: Ranks) {
    Solves(children, unions, ranks) && forall sigma :: Solves(children, unions, sigma) ==> Below(ranks, sigma)
  }

  method LayoutRanks(persons: set<Uuid>, children: Lists, indegrees: map<Uuid, int>, unions: Unions)
      returns (ranks: Ranks, consistent: bool)
    requires Holds(children, indegrees, persons, Edges(children)) && MembersWithin(unions, persons)
    ensures consistent <==> exists sigma :: Solves(children, unions, sigma)
    ensures consistent ==> LeastSolution(children, unions, ranks) && ranks.Keys <= persons
  {
    var ancestry, acyclic := GenerationRanks(persons, children, indegrees);
    ranks := ancestry;
    if !acyclic {
      forall sigma ensures !Solves(children, unions, sigma) {
        if Solves(children, unions, sigma) {
          SolutionMeansAcyclic(children, persons, sigma);
        }
      }
      return ranks, false;
    }
    forall sigma | Solves(children, unions, sigma) ensures Below(ancestry, sigma) {
      RanksBelowSolution(children, persons, ancestry, sigma);
    }
    ranks, consistent := AlignUnionRanks(ancestry, children, unions, |persons|, persons);
  }

  // In the least solution no row between the top and the lowest card is empty.
  lemma RowsInhabited(children: Lists, unions: Unions, persons: set<Uuid>, ranks: Ranks, v: Uuid, k: nat)
    requires ListsWithin(children, persons) && MembersWithin(unions, persons) && ranks.Keys <= persons
    requires LeastSolution(children, unions, ranks) && v in persons && k <= RankOf(ranks, v)
    ensures exists a :: a in persons && RankOf(ranks, a) == k
  {
    if forall a :: a in persons ==> RankOf(ranks, a) != k {
      // Everything below the empty row could move up by one.
      var lifted: Ranks := map a | a in ranks :: if ranks[a] > k then ranks[a] - 1 else ranks[a];
      forall a ensures RankOf(lifted, a) == if RankOf(ranks, a) > k then RankOf(ranks, a) - 1 else RankOf(ranks, a) {
      }
      forall e | e in Edges(children) ensures RankOf(lifted, e.parent) < RankOf(lifted, e.child) {
        EdgeWithin(children, persons, e);
      }
      assert Solves(children, unions, lifted);
    }
  }

  // ---- Rows and cards ----

  // Row k holds exactly the persons of rank k, by folded name and then by UUID.
  ghost predicate Arranged(persons: set<Uuid>, ranks: Ranks, names: map<Uuid, int>, rows: seq<seq<Uuid>>) {
    && |rows| > 0
    && (forall k :: 0 <= k < |rows| ==> SortedBy(names, rows[k]))
    && (forall k, v :: 0 <= k < |rows| ==> (v in rows[k] <==> v in persons && RankOf(ranks, v) == k))
    && (forall v :: v in persons ==> RankOf(ranks, v) < |rows|)
  }

  function LayerOf(layers: map<nat, seq<Uuid>>, k: nat): seq<Uuid> {
    if k in layers then layers[k] else []
  }

  // Layer k holds each of `done` that has rank k, once.
  ghost predicate Grouped(layers: map<nat, seq<Uuid>>, done: set<Uuid>, ranks: Ranks) {
    && (forall k: nat :: Distinct(LayerOf(layers, k)))
    && (forall k: nat, v: Uuid :: v in LayerOf(layers, k) <==> v in done && RankOf(ranks, v) == k)
  }

  lemma GroupOne(layers: map<nat, seq<Uuid>>, done: set<Uuid>, ranks: Ranks, v: Uuid)
    requires Grouped(layers, done, ranks) && v !in done
    ensures var k := RankOf(ranks, v);
      Grouped(layers[k := LayerOf(layers, k) + [v]], done + {v}, ranks)
  {
    var k := RankOf(ranks, v);
    var next := layers[k := LayerOf(layers, k) + [v]];
    forall j: nat ensures Distinct(LayerOf(next, j)) {
      assert Distinct(LayerOf(layers, j));
    }
    forall j: nat, w: Uuid ensures w in LayerOf(next, j) <==> w in done + {v} && RankOf(ranks, w) == j {
      assert w in LayerOf(layers, j) <==> w in done && RankOf(ranks, w) == j;
    }
  }

  method GroupByRank(persons: set<Uuid>, ranks: Ranks) returns (layers: map<nat, seq<Uuid>>, maximumRank: nat)
    ensures Grouped(layers, persons, ranks)
    ensures forall v :: v in persons ==> RankOf(ranks, v) <= maximumRank
    ensures maximumRank == 0 || exists v :: v in persons && RankOf(ranks, v) == maximumRank
  {
    layers, maximumRank := map[], 0;
    var rest := persons;
    while rest != {}
      invariant rest <= persons && Grouped(layers, persons - rest, ranks)
      invariant forall v :: v in persons - rest ==> RankOf(ranks, v) <= maximumRank
      invariant maximumRank == 0 || exists v :: v in persons && RankOf(ranks, v) == maximumRank
      decreases rest
    {
      var personID :| personID in rest;
      GroupOne(layers, persons - rest, ranks, personID);
      assert persons - (rest - {personID}) == (persons - rest) + {personID};
      rest := rest - {personID};
      var rank := RankOf(ranks, personID);
      layers := layers[rank := LayerOf(layers, rank) + [personID]];
      if rank > maximumRank {
        maximumRank := rank;
      }
    }
    assert persons - rest == persons;
  }

  // Sorts every layer; a tree without persons has one empty row.
  method SortLayers(persons: set<Uuid>, ranks: Ranks, names: map<Uuid, int>) returns (rows: seq<seq<Uuid>>)
    ensures Arranged(persons, ranks, names, rows)
    ensures |rows| == 1 || exists v :: v in persons && RankOf(ranks, v) == |rows| - 1
  {
    var layers, maximumRank := GroupByRank(persons, ranks);
    rows := [];
    for k := 0 to maximumRank + 1
      invariant |rows| == k
      invariant forall j :: 0 <= j < k ==> SortedBy(names, rows[j])
      invariant forall j, v :: 0 <= j < k ==> (v in rows[j] <==> v in persons && RankOf(ranks, v) == j)
    {
      var row := Sort(names, LayerOf(layers, k));
      rows := rows + [row];
    }
  }

  function RowWidth(n: nat): real {
    n as real * NODE_WIDTH + (if n == 0 then 0 else n - 1) as real * HORIZONTAL_GAP
  }

  function CardAt(width: real, rows: seq<seq<Uuid>>, k: nat, i: nat): Card
    requires k < |rows| && i < |rows[k]|
  {
    Card(rows[k][i],
         (width - RowWidth(|rows[k]|)) / 2.0 + i as real * (NODE_WIDTH + HORIZONTAL_GAP),
         HEADER_HEIGHT + k as real * (NODE_HEIGHT + VERTICAL_GAP))
  }

  function RowCards(width: real, rows: seq<seq<Uuid>>, k: nat): (row: seq<Card>)
    requires k < |rows|
    ensures |row| == |rows[k]| && forall i :: 0 <= i < |row| ==> row[i].id == rows[k][i]
  {
    seq(|rows[k]|, i requires 0 <= i < |rows[k]| => CardAt(width, rows, k, i))
  }

  // The cards of the first n rows, row by row.
  function Cards(width: real, rows: seq<seq<Uuid>>, n: nat): seq<Card>
    requires n <= |rows|
  {
    if n == 0 then [] else Cards(width, rows, n - 1) + RowCards(width, rows, n - 1)
  }

  ghost predicate IsCardAt(width: real, rows: seq<seq<Uuid>>, card: Card, k: nat, i: nat) {
    k < |rows| && i < |rows[k]| && card == CardAt(width, rows, k, i)
  }

  // Every card has a place in some row, and every place has its card.
  lemma {:induction false} CardsFillRows(width: real, rows: seq<seq<Uuid>>, n: nat)
    requires n <= |rows|
    ensures forall c :: c in Cards(width, rows, n) ==> exists k: nat, i: nat :: k < n && IsCardAt(width, rows, c, k, i)
    ensures forall k, i :: 0 <= k < n && 0 <= i < |rows[k]| ==> CardAt(width, rows, k, i) in Cards(width, rows, n)
  {
    if n > 0 {
      CardsFillRows(width, rows, n - 1);
      var row := RowCards(width, rows, n - 1);
      forall c | c in Cards(width, rows, n) ensures exists k: nat, i: nat :: k < n && IsCardAt(width, rows, c, k, i) {
        if c in row {
          var i :| 0 <= i < |row| && row[i] == c;
          assert IsCardAt(width, rows, c, n - 1, i);
        }
      }
      forall k, i | 0 <= k < n && 0 <= i < |rows[k]| ensures CardAt(width, rows, k, i) in Cards(width, rows, n) {
        if k == n - 1 {
          assert row[i] in row;
        }
      }
    }
  }

  // One card per person: no ID occurs twice.
  lemma {:induction false} CardsDistinct(persons: set<Uuid>, ranks: Ranks, names: map<Uuid, int>,
                                         width: real, rows: seq<seq<Uuid>>, n: nat)
    requires n <= |rows| && Arranged(persons, ranks, names, rows)
    ensures forall i, j :: 0 <= i < j < |Cards(width, rows, n)| ==> Cards(width, rows, n)[i].id != Cards(width, rows, n)[j].id
    ensures forall c :: c in Cards(width, rows, n) ==> c.id in persons && RankOf(ranks, c.id) < n
  {
    if n > 0 {
      CardsDistinct(persons, ranks, names, width, rows, n - 1);
      var upper := Cards(width, rows, n - 1);
      var row := RowCards(width, rows, n - 1);
      forall i | 0 <= i < |row| ensures row[i].id in persons && RankOf(ranks, row[i].id) == n - 1 {
        assert rows[n - 1][i] in rows[n - 1];
      }
      forall i | 0 <= i < |upper| ensures RankOf(ranks, upper[i].id) < n - 1 {
        assert upper[i] in upper;
      }
    }
  }

  // ---- The canvas ----

  function WidestRow(rows: seq<seq<Uuid>>, n: nat): nat
    requires n <= |rows|
  {
    if n == 0 then 1 else
      var w := WidestRow(rows, n - 1);
      if |rows[n - 1]| > w then |rows[n - 1]| else w
  }

  lemma {:induction false} WidestIsWidest(rows: seq<seq<Uuid>>, n: nat)
    requires n <= |rows|
    ensures WidestRow(rows, n) >= 1 && forall k :: 0 <= k < n ==> |rows[k]| <= WidestRow(rows, n)
  {
    if n > 0 {
      WidestIsWidest(rows, n - 1);
    }
  }

  function CanvasWidth(widest: nat): real {
    var content := RowWidth(widest) + 2.0 * HORIZONTAL_MARGIN;
    if content > MINIMUM_SCENE_WIDTH then content else MINIMUM_SCENE_WIDTH
  }

  function CanvasHeight(rowCount: nat): real {
    HEADER_HEIGHT + rowCount as real * NODE_HEIGHT
      + (if rowCount == 0 then 0 else rowCount - 1) as real * VERTICAL_GAP + FOOTER_HEIGHT
  }

  // The constraints of a manifest: children strictly below parents, partners of an active union level.
  ghost predicate Respects(persons: set<Uuid>, relations: seq<Relation>, unions: seq<Union>, members: seq<UnionMember>,
                           sigma: Ranks)
  {
    && (forall e :: e in ActiveEdges(relations, persons) ==> RankOf(sigma, e.parent) < RankOf(sigma, e.child))
    && (forall a, b :: Partners(unions, members, persons, a, b) ==> RankOf(sigma, a) == RankOf(sigma, b))
  }

  // The least assignment that respects the manifest, if there is one.
  ghost predicate LeastRespecting(persons: set<Uuid>, relations: seq<Relation>, unions: seq<Union>,
                                  members: seq<UnionMember>, ranks: Ranks)
  {
    && ranks.Keys <= persons
    && Respects(persons, relations, unions, members, ranks)
    && forall sigma :: Respects(persons, relations, unions, members, sigma) ==> Below(ranks, sigma)
  }

  ghost predicate Consistent(persons: set<Uuid>, relations: seq<Relation>, unions: seq<Union>, members: seq<UnionMember>) {
    exists sigma :: Respects(persons, relations, unions, members, sigma)
  }

  // The whole layout, determined by the manifest alone.
  ghost predicate Laid(persons: set<Uuid>, relations: seq<Relation>, unions: seq<Union>, members: seq<UnionMember>,
                       names: map<Uuid, int>, ranks: Ranks, canvas: Canvas)
  {
    && LeastRespecting(persons, relations, unions, members, ranks)
    && Arranged(persons, ranks, names, canvas.rows)
    && (|canvas.rows| == 1 || exists v :: v in persons && RankOf(ranks, v) == |canvas.rows| - 1)
    && canvas.width == CanvasWidth(WidestRow(canvas.rows, |canvas.rows|))
    && canvas.height == CanvasHeight(|canvas.rows|)
    && canvas.cards == Cards(canvas.width, canvas.rows, |canvas.rows|)
  }

  lemma SolvesIsRespects(persons: set<Uuid>, relations: seq<Relation>, unions: seq<Union>, members: seq<UnionMember>,
                         children: Lists, memberLists: Unions, sigma: Ranks)
    requires Edges(children) == ActiveEdges(relations, persons)
    requires forall u, a :: a in ChildrenOf(memberLists, u) <==> Partner(unions, members, persons, u, a)
    ensures Solves(children, memberLists, sigma) <==> Respects(persons, relations, unions, members, sigma)
  {
    if Level(memberLists, sigma) {
      forall a, b | Partners(unions, members, persons, a, b) ensures RankOf(sigma, a) == RankOf(sigma, b) {
        var u :| Partner(unions, members, persons, u, a) && Partner(unions, members, persons, u, b);
        assert a in ChildrenOf(memberLists, u) && b in ChildrenOf(memberLists, u);
      }
    }
    if Respects(persons, relations, unions, members, sigma) {
      forall u, a, b | u in memberLists && a in memberLists[u] && b in memberLists[u]
        ensures RankOf(sigma, a) == RankOf(sigma, b)
      {
        assert a in ChildrenOf(memberLists, u) && b in ChildrenOf(memberLists, u);
        assert Partners(unions, members, persons, a, b);
      }
    }
  }

  ghost function ActiveIds(persons: seq<Person>): set<Uuid> {
    set p | p in persons && !p.deleted :: p.id
  }

  method CollectPersons(persons: seq<Person>) returns (active: set<Uuid>)
    ensures active == ActiveIds(persons)
  {
    active := {};
    for i := 0 to |persons|
      invariant active == ActiveIds(persons[..i])
    {
      assert persons[..i + 1] == persons[..i] + [persons[i]];
      if !persons[i].deleted {
        active := active + {persons[i].id};
      }
    }
    assert persons[..|persons|] == persons;
  }

  ghost predicate FitsLimits(width: real, height: real, maxPixels: int) {
    width <= MAXIMUM_SIDE && height <= MAXIMUM_SIDE && width * height <= maxPixels as real
  }

  lemma AppendCard(placed: seq<Card>, row: seq<Card>, i: nat)
    requires i < |row|
    ensures placed + row[..i] + [row[i]] == placed + row[..i + 1]
  {
  }

  method DrawRows(width: real, rows: seq<seq<Uuid>>) returns (cards: seq<Card>)
    requires |rows| > 0
    ensures cards == Cards(width, rows, |rows|)
  {
    cards := [];
    for k := 0 to |rows|
      invariant cards == Cards(width, rows, k)
    {
      ghost var row := RowCards(width, rows, k);
      for i := 0 to |rows[k]|
        invariant cards == Cards(width, rows, k) + row[..i]
      {
        AppendCard(Cards(width, rows, k), row, i);
        cards := cards + [CardAt(width, rows, k, i)];
      }
      assert row[..|rows[k]|] == row;
    }
  }

  method PlaceCards(rows: seq<seq<Uuid>>, maxPixels: int) returns (outcome: Outcome)
    requires |rows| > 0
    ensures outcome.TooLarge? || outcome.Drawn?
    ensures outcome.Drawn? <==> FitsLimits(CanvasWidth(WidestRow(rows, |rows|)), CanvasHeight(|rows|), maxPixels)
    ensures outcome.Drawn? ==>
      var w := CanvasWidth(WidestRow(rows, |rows|));
      outcome.canvas == Canvas(w, CanvasHeight(|rows|), rows, Cards(w, rows, |rows|))
  {
    var widest := 1;
    for k := 0 to |rows|
      invariant widest == WidestRow(rows, k)
    {
      if |rows[k]| > widest {
        widest := |rows[k]|;
      }
    }
    var width := CanvasWidth(widest);
    var height := CanvasHeight(|rows|);
    if width > MAXIMUM_SIDE || height > MAXIMUM_SIDE || width * height > maxPixels as real {
      return TooLarge;
    }
    var cards := DrawRows(width, rows);
    outcome := Drawn(Canvas(width, height, rows, cards));
  }

  // The lists that the ranks are computed from, and that the lines are drawn from later.
  ghost predicate Collected(persons: set<Uuid>, relations: seq<Relation>, unions: seq<Union>, members: seq<UnionMember>,
                            parents: Lists, memberLists: Unions)
  {
    && ParentsHold(parents, ActiveEdges(relations, persons))
    && (forall u, a :: a in ChildrenOf(memberLists, u) <==> Partner(unions, members, persons, u, a))
    && (MembersOnce(members) ==> DistinctLists(memberLists)) && forall u :: u in memberLists ==> memberLists[u] != []
  }

  method RankPersons(persons: set<Uuid>, relations: seq<Relation>, unions: seq<Union>, members: seq<UnionMember>)
      returns (ranks: Ranks, consistent: bool, parents: Lists, memberLists: Unions)
    ensures Collected(persons, relations, unions, members, parents, memberLists)
    ensures consistent <==> Consistent(persons, relations, unions, members)
    ensures consistent ==> LeastRespecting(persons, relations, unions, members, ranks)
  {
    var children, indegrees;
    children, parents, indegrees := CollectGraph(persons, relations);
    memberLists := ActiveUnionMembers(unions, members, persons);
    forall u, a | u in memberLists && a in memberLists[u] ensures a in persons {
      assert a in ChildrenOf(memberLists, u);
    }
    forall sigma
      ensures Solves(children, memberLists, sigma) <==> Respects(persons, relations, unions, members, sigma)
    {
      SolvesIsRespects(persons, relations, unions, members, children, memberLists, sigma);
    }
    ranks, consistent := LayoutRanks(persons, children, indegrees, memberLists);
  }

  // Ranks, rows and cards, with the lists that the lines are drawn from.
  method LayOut(persons: set<Uuid>, relations: seq<Relation>, unions: seq<Union>, members: seq<UnionMember>,
                names: map<Uuid, int>, maxPixels: int)
      returns (outcome: Outcome, parents: Lists, memberLists: Unions, ghost ranks: Ranks)
    ensures Collected(persons, relations, unions, members, parents, memberLists)
    ensures !outcome.InvalidExport? && (outcome.SourceInvalid? <==> !Consistent(persons, relations, unions, members))
    ensures outcome.Drawn? ==>
      && Laid(persons, relations, unions, members, names, ranks, outcome.canvas)
      && FitsLimits(outcome.canvas.width, outcome.canvas.height, maxPixels)
    ensures outcome.TooLarge? ==>
      exists c :: Laid(persons, relations, unions, members, names, ranks, c) && !FitsLimits(c.width, c.height, maxPixels)
  {
    var found, consistent;
    found, consistent, parents, memberLists := RankPersons(persons, relations, unions, members);
    ranks := found;
    if !consistent {
      return SourceInvalid, parents, memberLists, ranks;
    }
    var rows := SortLayers(persons, found, names);
    outcome := PlaceCards(rows, maxPixels);
    ghost var width := CanvasWidth(WidestRow(rows, |rows|));
    ghost var canvas := Canvas(width, CanvasHeight(|rows|), rows, Cards(width, rows, |rows|));
    assert Laid(persons, relations, unions, members, names, ranks, canvas);
  }

  // ---- What the layout looks like ----

  lemma SameRowCount(persons: set<Uuid>, names: map<Uuid, int>, r: Ranks, rows: seq<seq<Uuid>>, s: Ranks, others: seq<seq<Uuid>>)
    requires Arranged(persons, r, names, rows) && Arranged(persons, s, names, others)
    requires forall v :: RankOf(r, v) == RankOf(s, v)
    requires |rows| == 1 || exists v :: v in persons && RankOf(r, v) == |rows| - 1
    requires |others| == 1 || exists v :: v in persons && RankOf(s, v) == |others| - 1
    ensures |rows| <= |others|
  {
    if |rows| != 1 {
      var v :| v in persons && RankOf(r, v) == |rows| - 1;
      assert RankOf(s, v) < |others|;
    }
  }

  // The manifest determines the picture: no map iteration order shows in it.
  lemma LayoutUnique(persons: set<Uuid>, relations: seq<Relation>, unions: seq<Union>, members: seq<UnionMember>,
                     names: map<Uuid, int>, r: Ranks, c: Canvas, s: Ranks, d: Canvas)
    requires Laid(persons, relations, unions, members, names, r, c)
    requires Laid(persons, relations, unions, members, names, s, d)
    ensures c == d
  {
    assert Below(r, s) && Below(s, r);
    forall v ensures RankOf(r, v) == RankOf(s, v) {
    }
    SameRowCount(persons, names, r, c.rows, s, d.rows);
    SameRowCount(persons, names, s, d.rows, r, c.rows);
    forall k | 0 <= k < |c.rows| ensures c.rows[k] == d.rows[k] {
      forall v ensures v in c.rows[k] <==> v in d.rows[k] {
        assert RankOf(r, v) == RankOf(s, v);
        assert v in c.rows[k] <==> v in persons && RankOf(r, v) == k;
        assert v in d.rows[k] <==> v in persons && RankOf(s, v) == k;
      }
      SortedUnique(names, c.rows[k], d.rows[k]);
    }
    assert c.rows == d.rows;
  }

  // Two cards leave the stated gap between each other, sideways or vertically.
  ghost predicate Apart(a: Card, b: Card) {
    || a.x + NODE_WIDTH + HORIZONTAL_GAP <= b.x || b.x + NODE_WIDTH + HORIZONTAL_GAP <= a.x
    || a.y + NODE_HEIGHT + VERTICAL_GAP <= b.y || b.y + NODE_HEIGHT + VERTICAL_GAP <= a.y
  }

  ghost predicate Inside(c: Card, canvas: Canvas) {
    && HORIZONTAL_MARGIN <= c.x && c.x + NODE_WIDTH <= canvas.width - HORIZONTAL_MARGIN
    && HEADER_HEIGHT <= c.y && c.y + NODE_HEIGHT <= canvas.height - FOOTER_HEIGHT
  }

  lemma PlacesApart(width: real, rows: seq<seq<Uuid>>, k: nat, i: nat, l: nat, j: nat)
    requires k < |rows| && i < |rows[k]| && l < |rows| && j < |rows[l]| && (k != l || i != j)
    ensures Apart(CardAt(width, rows, k, i), CardAt(width, rows, l, j))
  {
  }

  lemma PlaceInside(canvas: Canvas, k: nat, i: nat)
    requires k < |canvas.rows| && i < |canvas.rows[k]|
    requires canvas.width == CanvasWidth(WidestRow(canvas.rows, |canvas.rows|))
    requires canvas.height == CanvasHeight(|canvas.rows|)
    ensures Inside(CardAt(canvas.width, canvas.rows, k, i), canvas)
  {
    WidestIsWidest(canvas.rows, |canvas.rows|);
    var n, widest := |canvas.rows[k]|, WidestRow(canvas.rows, |canvas.rows|);
    assert RowWidth(n) <= RowWidth(widest) <= canvas.width - 2.0 * HORIZONTAL_MARGIN;
    assert RowWidth(n) == n as real * NODE_WIDTH + (n - 1) as real * HORIZONTAL_GAP;
  }

  lemma CardOf(persons: set<Uuid>, ranks: Ranks, names: map<Uuid, int>, width: real, rows: seq<seq<Uuid>>, v: Uuid)
      returns (card: Card)
    requires Arranged(persons, ranks, names, rows) && v in persons
    ensures card in Cards(width, rows, |rows|) && card.id == v
    ensures card.y == HEADER_HEIGHT + RankOf(ranks, v) as real * (NODE_HEIGHT + VERTICAL_GAP)
  {
    var k := RankOf(ranks, v);
    assert v in rows[k];
    var i :| 0 <= i < |rows[k]| && rows[k][i] == v;
    card := CardAt(width, rows, k, i);
    CardsFillRows(width, rows, |rows|);
  }

  lemma CardHeight(persons: set<Uuid>, ranks: Ranks, names: map<Uuid, int>, width: real, rows: seq<seq<Uuid>>, card: Card)
    requires Arranged(persons, ranks, names, rows) && card in Cards(width, rows, |rows|)
    ensures card.id in persons
    ensures card.y == HEADER_HEIGHT + RankOf(ranks, card.id) as real * (NODE_HEIGHT + VERTICAL_GAP)
  {
    CardsFillRows(width, rows, |rows|);
    var k: nat, i: nat :| k < |rows| && IsCardAt(width, rows, card, k, i);
    assert rows[k][i] in rows[k];
  }

  lemma CardsFramed(canvas: Canvas)
    requires canvas.width == CanvasWidth(WidestRow(canvas.rows, |canvas.rows|))
    requires canvas.height == CanvasHeight(|canvas.rows|)
    requires canvas.cards == Cards(canvas.width, canvas.rows, |canvas.rows|)
    requires forall i, j :: 0 <= i < j < |canvas.cards| ==> canvas.cards[i].id != canvas.cards[j].id
    ensures forall c :: c in canvas.cards ==> Inside(c, canvas)
    ensures forall i, j :: 0 <= i < j < |canvas.cards| ==> Apart(canvas.cards[i], canvas.cards[j])
  {
    CardsFillRows(canvas.width, canvas.rows, |canvas.rows|);
    forall i, j | 0 <= i < j < |canvas.cards| ensures Apart(canvas.cards[i], canvas.cards[j]) {
      var a, b := canvas.cards[i], canvas.cards[j];
      assert a in canvas.cards && b in canvas.cards;
      var k: nat, x: nat :| k < |canvas.rows| && IsCardAt(canvas.width, canvas.rows, a, k, x);
      var l: nat, y: nat :| l < |canvas.rows| && IsCardAt(canvas.width, canvas.rows, b, l, y);
      PlacesApart(canvas.width, canvas.rows, k, x, l, y);
    }
    forall c | c in canvas.cards ensures Inside(c, canvas) {
      var k: nat, x: nat :| k < |canvas.rows| && IsCardAt(canvas.width, canvas.rows, c, k, x);
      PlaceInside(canvas, k, x);
    }
  }

  lemma CardHeights(persons: set<Uuid>, relations: seq<Relation>, unions: seq<Union>, members: seq<UnionMember>,
                    names: map<Uuid, int>, ranks: Ranks, canvas: Canvas)
    requires Laid(persons, relations, unions, members, names, ranks, canvas)
    ensures forall p, c :: p in canvas.cards && c in canvas.cards && Edge(p.id, c.id) in ActiveEdges(relations, persons) ==>
      p.y + NODE_HEIGHT + VERTICAL_GAP <= c.y
    ensures forall a, b :: a in canvas.cards && b in canvas.cards && Partners(unions, members, persons, a.id, b.id) ==>
      a.y == b.y
  {
    forall c | c in canvas.cards
      ensures c.y == HEADER_HEIGHT + RankOf(ranks, c.id) as real * (NODE_HEIGHT + VERTICAL_GAP)
    {
      CardHeight(persons, ranks, names, canvas.width, canvas.rows, c);
    }
    forall p, c | p in canvas.cards && c in canvas.cards && Edge(p.id, c.id) in ActiveEdges(relations, persons)
      ensures p.y + NODE_HEIGHT + VERTICAL_GAP <= c.y
    {
      assert RankOf(ranks, p.id) + 1 <= RankOf(ranks, c.id);
    }
  }

  // One card for every active person and for nobody else; cards apart, inside the frame; relations run
  // down at least one full row; partners stand on one row.
  lemma SceneGeometry(persons: set<Uuid>, relations: seq<Relation>, unions: seq<Union>, members: seq<UnionMember>,
                      names: map<Uuid, int>, ranks: Ranks, canvas: Canvas)
    requires Laid(persons, relations, unions, members, names, ranks, canvas)
    ensures forall v :: v in persons <==> exists c :: c in canvas.cards && c.id == v
    ensures forall i, j :: 0 <= i < j < |canvas.cards| ==>
      canvas.cards[i].id != canvas.cards[j].id && Apart(canvas.cards[i], canvas.cards[j])
    ensures forall c :: c in canvas.cards ==> Inside(c, canvas)
    ensures forall p, c :: p in canvas.cards && c in canvas.cards && Edge(p.id, c.id) in ActiveEdges(relations, persons) ==>
      p.y + NODE_HEIGHT + VERTICAL_GAP <= c.y
    ensures forall a, b :: a in canvas.cards && b in canvas.cards && Partners(unions, members, persons, a.id, b.id) ==>
      a.y == b.y
  {
    forall v ensures v in persons <==> exists c :: c in canvas.cards && c.id == v {
      if v in persons {
        var card := CardOf(persons, ranks, names, canvas.width, canvas.rows, v);
      } else {
        forall c | c in canvas.cards ensures c.id != v {
          CardHeight(persons, ranks, names, canvas.width, canvas.rows, c);
        }
      }
    }
    CardsDistinct(persons, ranks, names, canvas.width, canvas.rows, |canvas.rows|);
    CardsFramed(canvas);
    CardHeights(persons, relations, unions, members, names, ranks, canvas);
  }

  datatype Point = Point(x: real, y: real)

  // The line from a parent's card to a child's card.
  function Elbow(parent: Card, child: Card): seq<Point> {
    var start := Point(parent.x + NODE_WIDTH / 2.0, parent.y + NODE_HEIGHT);
    var end := Point(child.x + NODE_WIDTH / 2.0, child.y);
    var middleY := start.y + (end.y - start.y) / 2.0;
    [start, Point(start.x, middleY), Point(end.x, middleY), end]
  }

  // Every drawn relation is axis-parallel, never rises, and bends inside the gap between two rows.
  lemma ElbowsRunDown(persons: set<Uuid>, relations: seq<Relation>, unions: seq<Union>, members: seq<UnionMember>,
                      names: map<Uuid, int>, ranks: Ranks, canvas: Canvas, parent: Card, child: Card)
    requires Laid(persons, relations, unions, members, names, ranks, canvas)
    requires parent in canvas.cards && child in canvas.cards
    requires Edge(parent.id, child.id) in ActiveEdges(relations, persons)
    ensures var line := Elbow(parent, child);
      && line[0].y + VERTICAL_GAP / 2.0 <= line[1].y == line[2].y <= line[3].y - VERTICAL_GAP / 2.0
      && line[0].x == line[1].x && line[2].x == line[3].x
  {
    CardHeights(persons, relations, unions, members, names, ranks, canvas);
  }
}
