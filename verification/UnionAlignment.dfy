/** Putting partners on one row: bounded relaxation of "children below parents, partners level". */
module UnionAlignment {
  import opened Graphs
  import opened AdjacencyLists
  import opened Generations

  type Unions = map<Uuid, seq<Uuid>>

  ghost predicate Descends(children: Lists, sigma: Ranks) {
    forall e :: e in Edges(children) ==> RankOf(sigma, e.parent) < RankOf(sigma, e.child)
  }

  ghost predicate Level(unions: Unions, sigma: Ranks) {
    forall u, a, b :: u in unions && a in unions[u] && b in unions[u] ==> RankOf(sigma, a) == RankOf(sigma, b)
  }

  // A non-negative assignment that meets every constraint of the layout.
  ghost predicate Solves(children: Lists, unions: Unions, sigma: Ranks) {
    Descends(children, sigma) && Level(unions, sigma)
  }

  ghost predicate Below(r: Ranks, s: Ranks) {
    forall v :: RankOf(r, v) <= RankOf(s, v)
  }

  ghost predicate Grew(r: Ranks, s: Ranks) {
    exists v :: RankOf(r, v) < RankOf(s, v)
  }

  // Raising r to s overshoots no solution.
  ghost predicate Safe(children: Lists, unions: Unions, r: Ranks, s: Ranks) {
    forall sigma :: Solves(children, unions, sigma) && Below(r, sigma) ==> Below(s, sigma)
  }

  ghost predicate MembersWithin(unions: Unions, vertices: set<Uuid>) {
    forall u, a :: u in unions && a in unions[u] ==> a in vertices
  }

  // What one sweep over all unions and all child lists does, in any order.
  ghost predicate Pass(children: Lists, unions: Unions, r: Ranks, s: Ranks) {
    && Below(r, s)
    && Safe(children, unions, r, s)
    && (forall e :: e in Edges(children) ==> RankOf(r, e.parent) < RankOf(s, e.child))
    && (forall u, a, b :: u in unions && a in unions[u] && b in unions[u] ==> RankOf(r, a) <= RankOf(s, b))
  }

  // A pass that changes nothing has found a solution.
  lemma QuietPassSolves(children: Lists, unions: Unions, r: Ranks)
    requires Pass(children, unions, r, r)
    ensures Solves(children, unions, r)
  {
  }

  // sigma cannot be lowered anywhere on `vertices` without violating a constraint or going under `floor`.
  ghost predicate Minimal(children: Lists, unions: Unions, vertices: set<Uuid>, floor: Ranks, sigma: Ranks) {
    && Solves(children, unions, sigma) && Below(floor, sigma)
    && forall tau :: Solves(children, unions, tau) && Below(floor, tau) && Below(tau, sigma) ==>
         forall v :: v in vertices ==> RankOf(tau, v) == RankOf(sigma, v)
  }

  ghost function Total(vertices: set<Uuid>, r: Ranks): nat {
    if vertices == {} then 0 else
      var v :| v in vertices;
      RankOf(r, v) + Total(vertices - {v}, r)
  }

  lemma {:induction false} TotalMonotone(vertices: set<Uuid>, r: Ranks, s: Ranks)
    requires forall v :: v in vertices ==> RankOf(r, v) <= RankOf(s, v)
    ensures Total(vertices, r) <= Total(vertices, s)
    ensures (exists v :: v in vertices && RankOf(r, v) < RankOf(s, v)) ==> Total(vertices, r) < Total(vertices, s)
  {
    if vertices != {} {
      var v :| v in vertices && Total(vertices, r) == RankOf(r, v) + Total(vertices - {v}, r)
                             && Total(vertices, s) == RankOf(s, v) + Total(vertices - {v}, s);
      TotalMonotone(vertices - {v}, r, s);
    }
  }

  // Any solution leads down to a minimal one.
  lemma {:induction false} DescendToMinimal(children: Lists, unions: Unions, vertices: set<Uuid>, floor: Ranks, sigma: Ranks)
      returns (least: Ranks)
    requires Solves(children, unions, sigma) && Below(floor, sigma)
    ensures Minimal(children, unions, vertices, floor, least)
    decreases Total(vertices, sigma)
  {
    if Minimal(children, unions, vertices, floor, sigma) {
      least := sigma;
    } else {
      var tau, v :| Solves(children, unions, tau) && Below(floor, tau) && Below(tau, sigma) &&
        v in vertices && RankOf(tau, v) != RankOf(sigma, v);
      assert RankOf(tau, v) < RankOf(sigma, v);
      TotalMonotone(vertices, tau, sigma);
      least := DescendToMinimal(children, unions, vertices, floor, tau);
    }
  }

  ghost function Tight(vertices: set<Uuid>, r: Ranks, sigma: Ranks): set<Uuid> {
    set v | v in vertices && RankOf(r, v) == RankOf(sigma, v)
  }

  // sigma lowered by one on `slack`.
  ghost function Lowered(sigma: Ranks, slack: set<Uuid>): Ranks
    requires forall v :: v in slack ==> RankOf(sigma, v) > 0
  {
    map v | v in sigma :: if v in slack then (assert RankOf(sigma, v) > 0; sigma[v] - 1) else sigma[v]
  }

  lemma LoweredRank(sigma: Ranks, slack: set<Uuid>, v: Uuid)
    requires forall v :: v in slack ==> RankOf(sigma, v) > 0
    ensures RankOf(Lowered(sigma, slack), v) == if v in slack then RankOf(sigma, v) - 1 else RankOf(sigma, v)
  {
  }

  // If no constraint out of `vertices - slack` holds `slack` up, sigma can be lowered there.
  lemma LoweredSolves(children: Lists, unions: Unions, vertices: set<Uuid>, sigma: Ranks, slack: set<Uuid>)
    requires ListsWithin(children, vertices) && MembersWithin(unions, vertices)
    requires Solves(children, unions, sigma) && slack <= vertices
    requires forall v :: v in slack ==> RankOf(sigma, v) > 0
    requires forall e :: e in Edges(children) && e.parent !in slack && e.child in slack ==>
      RankOf(sigma, e.parent) + 1 < RankOf(sigma, e.child)
    requires forall u, a, b :: u in unions && a in unions[u] && b in unions[u] && b in slack ==> a in slack
    ensures Solves(children, unions, Lowered(sigma, slack))
  {
    var tau := Lowered(sigma, slack);
    forall e | e in Edges(children) ensures RankOf(tau, e.parent) < RankOf(tau, e.child) {
      LoweredRank(sigma, slack, e.parent);
      LoweredRank(sigma, slack, e.child);
    }
    forall u, a, b | u in unions && a in unions[u] && b in unions[u] ensures RankOf(tau, a) == RankOf(tau, b) {
      LoweredRank(sigma, slack, a);
      LoweredRank(sigma, slack, b);
    }
  }

  lemma LoweringContradictsMinimal(children: Lists, unions: Unions, vertices: set<Uuid>, floor: Ranks,
                                   r: Ranks, sigma: Ranks)
    requires Minimal(children, unions, vertices, floor, sigma)
    requires Below(floor, r) && Below(r, sigma)
    requires Tight(vertices, r, sigma) != vertices
    ensures !Solves(children, unions, Lowered(sigma, vertices - Tight(vertices, r, sigma)))
  {
    var slack := vertices - Tight(vertices, r, sigma);
    var tau := Lowered(sigma, slack);
    forall v ensures RankOf(tau, v) <= RankOf(sigma, v) && RankOf(floor, v) <= RankOf(tau, v) {
      LoweredRank(sigma, slack, v);
    }
    var v :| v in slack;
    LoweredRank(sigma, slack, v);
    assert RankOf(tau, v) != RankOf(sigma, v);
  }

  lemma EdgeWithin(children: Lists, vertices: set<Uuid>, e: Edge)
    requires ListsWithin(children, vertices) && e in Edges(children)
    ensures e.parent in vertices && e.child in vertices
  {
  }

  // Each pass makes another person's rank final, until all are.
  lemma PassTightens(children: Lists, unions: Unions, vertices: set<Uuid>, floor: Ranks, r: Ranks, s: Ranks, sigma: Ranks)
    requires ListsWithin(children, vertices) && MembersWithin(unions, vertices)
    requires Minimal(children, unions, vertices, floor, sigma)
    requires Below(floor, r) && Below(r, sigma) && Pass(children, unions, r, s)
    requires Tight(vertices, r, sigma) != vertices
    ensures Tight(vertices, r, sigma) < Tight(vertices, s, sigma)
  {
    assert Below(s, sigma);
    forall v | v in Tight(vertices, r, sigma) ensures v in Tight(vertices, s, sigma) {
      assert RankOf(r, v) <= RankOf(s, v) <= RankOf(sigma, v);
    }
    if Tight(vertices, r, sigma) == Tight(vertices, s, sigma) {
      var slack := vertices - Tight(vertices, r, sigma);
      forall v | v in slack ensures RankOf(s, v) < RankOf(sigma, v) {
        assert v !in Tight(vertices, s, sigma);
      }
      forall e | e in Edges(children) && e.parent !in slack && e.child in slack
        ensures RankOf(sigma, e.parent) + 1 < RankOf(sigma, e.child)
      {
        EdgeWithin(children, vertices, e);
        assert e.parent in Tight(vertices, r, sigma);
      }
      forall u, a, b | u in unions && a in unions[u] && b in unions[u] && b in slack ensures a in slack {
        assert RankOf(sigma, a) == RankOf(sigma, b);
      }
      LoweredSolves(children, unions, vertices, sigma, slack);
      LoweringContradictsMinimal(children, unions, vertices, floor, r, sigma);
    }
  }

  // The largest rank among the members, never below 0.
  method MaximumRank(ranks: Ranks, members: seq<Uuid>) returns (maximum: nat)
    ensures forall a :: a in members ==> RankOf(ranks, a) <= maximum
    ensures maximum == 0 || exists a :: a in members && RankOf(ranks, a) == maximum
  {
    maximum := 0;
    for i := 0 to |members|
      invariant forall j :: 0 <= j < i ==> RankOf(ranks, members[j]) <= maximum
      invariant maximum == 0 || exists a :: a in members && RankOf(ranks, a) == maximum
    {
      if maximum < RankOf(ranks, members[i]) {
        maximum := RankOf(ranks, members[i]);
      }
    }
  }

  // What a sweep knows: ranks have only grown, stay below every solution, and `changed` tells whether any grew.
  ghost predicate Advanced(children: Lists, unions: Unions, ranks0: Ranks, ranks: Ranks, changed: bool) {
    && Below(ranks0, ranks) && Safe(children, unions, ranks0, ranks)
    && (if changed then Grew(ranks0, ranks) else ranks == ranks0)
  }

  // One rank may grow to any value that no solution falls short of.
  lemma RaiseOne(children: Lists, unions: Unions, ranks0: Ranks, ranks: Ranks, changed: bool, v: Uuid, value: nat)
    requires Advanced(children, unions, ranks0, ranks, changed) && RankOf(ranks, v) < value
    requires forall sigma :: Solves(children, unions, sigma) && Below(ranks0, sigma) ==> value <= RankOf(sigma, v)
    ensures Advanced(children, unions, ranks0, ranks[v := value], true)
  {
    assert RankOf(ranks0, v) < RankOf(ranks[v := value], v);
  }

  // In a solution every member is as high as the highest was.
  lemma MembersReachMaximum(children: Lists, unions: Unions, u: Uuid, ranks0: Ranks, v: Uuid, maximum: nat)
    requires u in unions && v in unions[u]
    requires maximum == 0 || exists a :: a in unions[u] && RankOf(ranks0, a) == maximum
    ensures forall sigma :: Solves(children, unions, sigma) && Below(ranks0, sigma) ==> maximum <= RankOf(sigma, v)
  {
    if maximum > 0 {
      var a :| a in unions[u] && RankOf(ranks0, a) == maximum;
      forall sigma | Solves(children, unions, sigma) && Below(ranks0, sigma) ensures maximum <= RankOf(sigma, v) {
        assert RankOf(sigma, a) == RankOf(sigma, v);
      }
    }
  }

  // Raises the members of one union to the highest of them.
  method RaiseMembers(ranks0: Ranks, members: seq<Uuid>, ghost children: Lists, ghost unions: Unions, ghost u: Uuid)
      returns (ranks: Ranks, changed: bool)
    requires u in unions && unions[u] == members
    ensures Advanced(children, unions, ranks0, ranks, changed)
    ensures forall a, b :: a in members && b in members ==> RankOf(ranks0, a) <= RankOf(ranks, b)
    ensures ranks.Keys <= ranks0.Keys + set a | a in members
  {
    ranks, changed := ranks0, false;
    var maximum := MaximumRank(ranks0, members);
    for i := 0 to |members|
      invariant Advanced(children, unions, ranks0, ranks, changed)
      invariant forall j :: 0 <= j < i ==> maximum <= RankOf(ranks, members[j])
      invariant ranks.Keys <= ranks0.Keys + set a | a in members
    {
      var personID := members[i];
      if RankOf(ranks, personID) < maximum {
        MembersReachMaximum(children, unions, u, ranks0, personID, maximum);
        RaiseOne(children, unions, ranks0, ranks, changed, personID, maximum);
        ranks := ranks[personID := maximum];
        changed := true;
      }
    }
  }

  lemma SafeCompose(children: Lists, unions: Unions, r: Ranks, s: Ranks, t: Ranks)
    requires Below(r, s) && Below(s, t)
    ensures Below(r, t)
    ensures Safe(children, unions, r, s) && Safe(children, unions, s, t) ==> Safe(children, unions, r, t)
    ensures Grew(r, s) || Grew(s, t) ==> Grew(r, t)
  {
    if Grew(r, s) {
      var v :| RankOf(r, v) < RankOf(s, v);
      assert RankOf(r, v) < RankOf(t, v);
    }
    if Grew(s, t) {
      var v :| RankOf(s, v) < RankOf(t, v);
      assert RankOf(r, v) < RankOf(t, v);
    }
  }

  // Every union once, in any order.
  method UnionSweep(ranks0: Ranks, children: Lists, unions: Unions, ghost vertices: set<Uuid>)
      returns (ranks: Ranks, changed: bool)
    requires MembersWithin(unions, vertices) && ranks0.Keys <= vertices
    ensures Below(ranks0, ranks) && Safe(children, unions, ranks0, ranks) && ranks.Keys <= vertices
    ensures forall u, a, b :: u in unions && a in unions[u] && b in unions[u] ==> RankOf(ranks0, a) <= RankOf(ranks, b)
    ensures changed ==> Grew(ranks0, ranks)
    ensures !changed ==> ranks == ranks0
  {
    ranks, changed := ranks0, false;
    var rest := unions.Keys;
    while rest != {}
      invariant rest <= unions.Keys
      invariant Below(ranks0, ranks) && Safe(children, unions, ranks0, ranks) && ranks.Keys <= vertices
      invariant forall u, a, b :: u in unions && u !in rest && a in unions[u] && b in unions[u] ==>
        RankOf(ranks0, a) <= RankOf(ranks, b)
      invariant changed ==> Grew(ranks0, ranks)
      invariant !changed ==> ranks == ranks0
      decreases rest
    {
      var u :| u in rest;
      rest := rest - {u};
      ghost var before := ranks;
      var raised;
      ranks, raised := RaiseMembers(ranks, unions[u], children, unions, u);
      SafeCompose(children, unions, ranks0, before, ranks);
      changed := changed || raised;
    }
  }

  // In a solution a child lies below a parent, however high the parent is already.
  lemma ChildBelowParent(children: Lists, unions: Unions, ranks0: Ranks, ranks: Ranks, parentID: Uuid, i: nat)
    requires parentID in children && i < |children[parentID]| && Safe(children, unions, ranks0, ranks)
    ensures forall sigma :: Solves(children, unions, sigma) && Below(ranks0, sigma) ==>
      RankOf(ranks, parentID) + 1 <= RankOf(sigma, children[parentID][i])
  {
    assert Edge(parentID, children[parentID][i]) in Edges(children);
  }

  lemma LowerOne(children: Lists, unions: Unions, ranks0: Ranks, ranks: Ranks, changed: bool, parentID: Uuid, i: nat)
    requires Advanced(children, unions, ranks0, ranks, changed) && parentID in children && i < |children[parentID]|
    requires RankOf(ranks, children[parentID][i]) <= RankOf(ranks, parentID)
    ensures Advanced(children, unions, ranks0, ranks[children[parentID][i] := RankOf(ranks, parentID) + 1], true)
  {
    ChildBelowParent(children, unions, ranks0, ranks, parentID, i);
    RaiseOne(children, unions, ranks0, ranks, changed, children[parentID][i], RankOf(ranks, parentID) + 1);
  }

  // Pushes the children of one person below that person.
  method LowerChildren(ranks0: Ranks, parentID: Uuid, list: seq<Uuid>, ghost children: Lists, ghost unions: Unions)
      returns (ranks: Ranks, changed: bool)
    requires parentID in children && children[parentID] == list
    ensures Advanced(children, unions, ranks0, ranks, changed)
    ensures forall c :: c in list ==> RankOf(ranks0, parentID) < RankOf(ranks, c)
    ensures ranks.Keys <= ranks0.Keys + set c | c in list
  {
    ranks, changed := ranks0, false;
    for i := 0 to |list|
      invariant Advanced(children, unions, ranks0, ranks, changed)
      invariant forall j :: 0 <= j < i ==> RankOf(ranks0, parentID) < RankOf(ranks, list[j])
      invariant ranks.Keys <= ranks0.Keys + set c | c in list
    {
      var childID := list[i];
      assert RankOf(ranks0, parentID) <= RankOf(ranks, parentID);
      if RankOf(ranks, childID) <= RankOf(ranks, parentID) {
        LowerOne(children, unions, ranks0, ranks, changed, parentID, i);
        ranks := ranks[childID := RankOf(ranks, parentID) + 1];
        changed := true;
      }
    }
  }

  // Every child list once, in any order.
  method ChildSweep(ranks0: Ranks, children: Lists, unions: Unions, ghost vertices: set<Uuid>)
      returns (ranks: Ranks, changed: bool)
    requires ListsWithin(children, vertices) && ranks0.Keys <= vertices
    ensures Below(ranks0, ranks) && Safe(children, unions, ranks0, ranks) && ranks.Keys <= vertices
    ensures forall e :: e in Edges(children) ==> RankOf(ranks0, e.parent) < RankOf(ranks, e.child)
    ensures changed ==> Grew(ranks0, ranks)
    ensures !changed ==> ranks == ranks0
  {
    ranks, changed := ranks0, false;
    var rest := children.Keys;
    while rest != {}
      invariant rest <= children.Keys
      invariant Below(ranks0, ranks) && Safe(children, unions, ranks0, ranks) && ranks.Keys <= vertices
      invariant forall e :: e in Edges(children) && e.parent !in rest ==> RankOf(ranks0, e.parent) < RankOf(ranks, e.child)
      invariant changed ==> Grew(ranks0, ranks)
      invariant !changed ==> ranks == ranks0
      decreases rest
    {
      var parentID :| parentID in rest;
      rest := rest - {parentID};
      ghost var before := ranks;
      var lowered;
      ranks, lowered := LowerChildren(ranks, parentID, children[parentID], children, unions);
      SafeCompose(children, unions, ranks0, before, ranks);
      changed := changed || lowered;
    }
  }

  lemma GrowthMeansSlack(vertices: set<Uuid>, r: Ranks, s: Ranks, sigma: Ranks)
    requires Grew(r, s) && Below(s, sigma) && r.Keys <= vertices && s.Keys <= vertices
    ensures Tight(vertices, r, sigma) != vertices
  {
    var v :| RankOf(r, v) < RankOf(s, v);
    assert v in vertices && RankOf(r, v) < RankOf(sigma, v);
    assert v !in Tight(vertices, r, sigma);
  }

  lemma SubsetSize(small: set<Uuid>, large: set<Uuid>)
    requires small <= large
    ensures |small| <= |large|
  {
    assert large == small + (large - small);
  }

  lemma TightSizes(vertices: set<Uuid>, r: Ranks, s: Ranks, sigma: Ranks)
    requires Tight(vertices, r, sigma) <= Tight(vertices, s, sigma)
    ensures |Tight(vertices, s, sigma)| <= |vertices|
    ensures Tight(vertices, r, sigma) < Tight(vertices, s, sigma) ==>
      |Tight(vertices, r, sigma)| < |Tight(vertices, s, sigma)|
  {
    SubsetSize(Tight(vertices, s, sigma), vertices);
    var gained := Tight(vertices, s, sigma) - Tight(vertices, r, sigma);
    assert Tight(vertices, s, sigma) == Tight(vertices, r, sigma) + gained;
  }

  method AlignUnionRanks(ranks0: Ranks, children: Lists, unions: Unions, personCount: nat, ghost vertices: set<Uuid>)
      returns (ranks: Ranks, aligned: bool)
    requires ListsWithin(children, vertices) && MembersWithin(unions, vertices)
    requires ranks0.Keys <= vertices && personCount == |vertices|
    ensures aligned <==> exists sigma :: Solves(children, unions, sigma) && Below(ranks0, sigma)
    ensures aligned ==> Solves(children, unions, ranks)
    ensures Below(ranks0, ranks) && Safe(children, unions, ranks0, ranks) && ranks.Keys <= vertices
  {
    ranks := ranks0;
    ghost var solvable := exists sigma :: Solves(children, unions, sigma) && Below(ranks0, sigma);
    ghost var least: Ranks := ranks0;
    if solvable {
      ghost var sigma :| Solves(children, unions, sigma) && Below(ranks0, sigma);
      least := DescendToMinimal(children, unions, vertices, ranks0, sigma);
    }
    var iteration := 0;
    while iteration <= personCount
      invariant 0 <= iteration <= personCount + 1
      invariant Below(ranks0, ranks) && Safe(children, unions, ranks0, ranks) && ranks.Keys <= vertices
      invariant solvable ==> Minimal(children, unions, vertices, ranks0, least)
      invariant solvable ==> iteration <= |Tight(vertices, ranks, least)|
    {
      ghost var start := ranks;
      var raised, lowered;
      ranks, raised := UnionSweep(ranks, children, unions, vertices);
      ghost var middle := ranks;
      ranks, lowered := ChildSweep(ranks, children, unions, vertices);
      SafeCompose(children, unions, start, middle, ranks);
      SafeCompose(children, unions, ranks0, start, ranks);
      assert Pass(children, unions, start, ranks);
      if !(raised || lowered) {
        QuietPassSolves(children, unions, ranks);
        return ranks, true;
      }
      if solvable {
        GrowthMeansSlack(vertices, start, ranks, least);
        PassTightens(children, unions, vertices, ranks0, start, ranks, least);
        TightSizes(vertices, start, ranks, least);
      }
      iteration := iteration + 1;
    }
    if solvable {
      TightSizes(vertices, ranks, ranks, least);
    }
    aligned := false;
  }

  // A run of passes that all change something.
  ghost predicate ChangingPasses(children: Lists, unions: Unions, run: seq<Ranks>) {
    forall i, j :: 0 <= i < |run| && j == i + 1 && j < |run| ==>
      Pass(children, unions, run[i], run[j]) && Grew(run[i], run[j])
  }

  lemma SomebodyIsTight(children: Lists, unions: Unions, vertices: set<Uuid>, floor: Ranks, least: Ranks)
    requires ListsWithin(children, vertices) && MembersWithin(unions, vertices) && vertices != {}
    requires Minimal(children, unions, vertices, floor, least)
    ensures |Tight(vertices, floor, least)| >= 1
  {
    if Tight(vertices, floor, least) == {} {
      forall v | v in vertices ensures RankOf(least, v) > 0 {
        assert v !in Tight(vertices, floor, least);
      }
      LoweredSolves(children, unions, vertices, least, vertices);
      assert vertices - Tight(vertices, floor, least) == vertices;
      LoweringContradictsMinimal(children, unions, vertices, floor, floor, least);
    }
  }

  lemma ChangingPassTightens(children: Lists, unions: Unions, vertices: set<Uuid>, floor: Ranks, r: Ranks, s: Ranks,
                             least: Ranks)
    requires ListsWithin(children, vertices) && MembersWithin(unions, vertices)
    requires r.Keys <= vertices && s.Keys <= vertices
    requires Pass(children, unions, r, s) && Grew(r, s)
    requires Minimal(children, unions, vertices, floor, least) && Below(floor, r) && Below(r, least)
    ensures Below(floor, s) && Below(s, least)
    ensures |Tight(vertices, r, least)| < |Tight(vertices, s, least)|
  {
    assert Below(s, least);
    SafeCompose(children, unions, floor, r, s);
    GrowthMeansSlack(vertices, r, s, least);
    PassTightens(children, unions, vertices, floor, r, s, least);
    TightSizes(vertices, r, s, least);
  }

  lemma {:induction false} TightGrowsAlong(children: Lists, unions: Unions, vertices: set<Uuid>, run: seq<Ranks>,
                                           k: nat, least: Ranks)
    requires ListsWithin(children, vertices) && MembersWithin(unions, vertices)
    requires k < |run| && ChangingPasses(children, unions, run)
    requires forall i :: 0 <= i < |run| ==> run[i].Keys <= vertices
    requires Minimal(children, unions, vertices, run[0], least)
    ensures Below(run[0], run[k]) && Below(run[k], least)
    ensures |Tight(vertices, run[k], least)| >= |Tight(vertices, run[0], least)| + k
  {
    if k > 0 {
      TightGrowsAlong(children, unions, vertices, run, k - 1, least);
      ChangingPassTightens(children, unions, vertices, run[0], run[k - 1], run[k], least);
    }
  }

  // If a solution exists, the fixpoint is reached after fewer changing passes than there are persons,
  // so the quiet pass is at latest the one numbered personCount (or the first, when there is nobody).
  lemma PassesReachFixpoint(children: Lists, unions: Unions, vertices: set<Uuid>, run: seq<Ranks>, sigma: Ranks)
    requires ListsWithin(children, vertices) && MembersWithin(unions, vertices)
    requires |run| > 0 && ChangingPasses(children, unions, run)
    requires forall i :: 0 <= i < |run| ==> run[i].Keys <= vertices
    requires Solves(children, unions, sigma) && Below(run[0], sigma)
    ensures |run| <= 1 || |run| <= |vertices|
  {
    if |run| > 1 {
      var least := DescendToMinimal(children, unions, vertices, run[0], sigma);
      GrowthMeansSlack(vertices, run[0], run[1], least) by {
        assert Pass(children, unions, run[0], run[1]) && Below(run[1], least);
      }
      SomebodyIsTight(children, unions, vertices, run[0], least);
      TightGrowsAlong(children, unions, vertices, run, |run| - 1, least);
      SubsetSize(Tight(vertices, run[|run| - 1], least), vertices);
    }
  }

  // An integer assignment of the persons that meets the constraints.
  ghost predicate IntegerSolution(children: Lists, unions: Unions, vertices: set<Uuid>, assign: map<Uuid, int>) {
    && assign.Keys == vertices
    && (forall e :: e in Edges(children) ==> e.parent in vertices && e.child in vertices && assign[e.parent] < assign[e.child])
    && (forall u, a, b :: u in unions && a in unions[u] && b in unions[u] ==>
          a in vertices && b in vertices && assign[a] == assign[b])
  }

  lemma {:induction false} LowerBound(vertices: set<Uuid>, assign: map<Uuid, int>) returns (low: int)
    requires vertices <= assign.Keys
    ensures forall v :: v in vertices ==> low <= assign[v]
  {
    if vertices == {} {
      low := 0;
    } else {
      var v :| v in vertices;
      low := LowerBound(vertices - {v}, assign);
      if assign[v] < low {
        low := assign[v];
      }
    }
  }

  // Negative generations would not help: shifting makes any integer assignment non-negative.
  lemma IntegerSolutionShifts(children: Lists, unions: Unions, vertices: set<Uuid>, assign: map<Uuid, int>)
    requires ListsWithin(children, vertices) && MembersWithin(unions, vertices)
    requires IntegerSolution(children, unions, vertices, assign)
    ensures exists sigma :: Solves(children, unions, sigma)
  {
    var low := LowerBound(vertices, assign);
    var sigma: Ranks := map v | v in vertices :: assign[v] - low;
    assert Solves(children, unions, sigma);
  }

  // Two aligned results from the same start agree everywhere, whatever order the maps were read in.
  lemma AlignedUnique(children: Lists, unions: Unions, floor: Ranks, r: Ranks, s: Ranks)
    requires Solves(children, unions, r) && Below(floor, r) && Safe(children, unions, floor, r)
    requires Solves(children, unions, s) && Below(floor, s) && Safe(children, unions, floor, s)
    ensures forall v :: RankOf(r, v) == RankOf(s, v)
  {
    assert Below(r, s) && Below(s, r);
  }
}
