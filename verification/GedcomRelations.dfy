/** Parent-child relations turned into children of families: groups by child and type, in chunks of two parents. */
module GedcomRelations {
  import opened Graphs
  import opened Manifest
  import opened Ordering
  import opened Arrangements
  import opened GedcomFamilies

  // ---- Groups ----

  // A relation the exporter translates: not deleted, not of a person to itself, between active persons.
  predicate Translated(r: Relation, persons: Persons) {
    !r.deleted && r.parent != r.child && r.parent in persons && r.child in persons
  }

  function TypeName(r: Relation): string {
    if r.relationType == "" then "unknown" else r.relationType
  }

  ghost predicate Related(relations: seq<Relation>, persons: Persons, p: Uuid, c: Uuid, t: string) {
    exists r :: r in relations && Translated(r, persons) && r.parent == p && r.child == c && TypeName(r) == t
  }

  type ParentSets = map<(Uuid, string), set<Uuid>>

  predicate Grouped(grouped: ParentSets, p: Uuid, c: Uuid, t: string) {
    (c, t) in grouped && p in grouped[(c, t)]
  }

  ghost predicate Groups(relations: seq<Relation>, persons: Persons, grouped: ParentSets) {
    forall p: Uuid, c: Uuid, t: string :: Related(relations, persons, p, c, t) <==> Grouped(grouped, p, c, t)
  }

  function WithParent(grouped: ParentSets, key: (Uuid, string), p: Uuid): ParentSets {
    grouped[key := (if key in grouped then grouped[key] else {}) + {p}]
  }

  lemma RelatedStep(relations: seq<Relation>, persons: Persons, i: nat)
    requires i < |relations|
    ensures forall p: Uuid, c: Uuid, t: string :: Related(relations[..i + 1], persons, p, c, t) <==>
      || Related(relations[..i], persons, p, c, t)
      || (Translated(relations[i], persons) && relations[i].parent == p && relations[i].child == c && TypeName(relations[i]) == t)
  {
    var before, after := relations[..i], relations[..i + 1];
    assert after == before + [relations[i]];
    forall p: Uuid, c: Uuid, t: string
      ensures Related(after, persons, p, c, t) <==>
        || Related(before, persons, p, c, t)
        || (Translated(relations[i], persons) && relations[i].parent == p && relations[i].child == c && TypeName(relations[i]) == t)
    {
      if Related(before, persons, p, c, t) {
        var r :| r in before && Translated(r, persons) && r.parent == p && r.child == c && TypeName(r) == t;
        assert r in after;
      }
      assert relations[i] in after;
    }
  }

  lemma GroupsStep(relations: seq<Relation>, persons: Persons, i: nat, before: ParentSets, after: ParentSets)
    requires i < |relations| && Groups(relations[..i], persons, before)
    requires after == if Translated(relations[i], persons)
      then WithParent(before, (relations[i].child, TypeName(relations[i])), relations[i].parent) else before
    ensures Groups(relations[..i + 1], persons, after)
  {
    RelatedStep(relations, persons, i);
    forall p: Uuid, c: Uuid, t: string
      ensures Related(relations[..i + 1], persons, p, c, t) <==> Grouped(after, p, c, t)
    {
      assert Related(relations[..i], persons, p, c, t) <==> Grouped(before, p, c, t);
    }
  }

  // The same as one map.
  ghost function ParentSetsOf(relations: seq<Relation>, persons: Persons): ParentSets {
    map key: (Uuid, string) | key in set r | r in relations && Translated(r, persons) :: (r.child, TypeName(r)) ::
      set r | r in relations && Translated(r, persons) && r.child == key.0 && TypeName(r) == key.1 :: r.parent
  }

  lemma KeysAre(relations: seq<Relation>, persons: Persons, grouped: ParentSets)
    requires Groups(relations, persons, grouped) && forall key :: key in grouped ==> grouped[key] != {}
    ensures grouped.Keys == ParentSetsOf(relations, persons).Keys
  {
    forall key: (Uuid, string) ensures key in grouped <==> key in ParentSetsOf(relations, persons) {
      if key in grouped {
        var p :| p in grouped[key];
        assert Grouped(grouped, p, key.0, key.1);
      }
      if key in ParentSetsOf(relations, persons) {
        var r :| r in relations && Translated(r, persons) && (r.child, TypeName(r)) == key;
        assert Related(relations, persons, r.parent, key.0, key.1);
      }
    }
  }

  lemma ParentSetsAre(relations: seq<Relation>, persons: Persons, grouped: ParentSets)
    requires Groups(relations, persons, grouped) && forall key :: key in grouped ==> grouped[key] != {}
    ensures grouped == ParentSetsOf(relations, persons)
  {
    KeysAre(relations, persons, grouped);
    forall key: (Uuid, string) | key in grouped ensures grouped[key] == ParentSetsOf(relations, persons)[key] {
      forall p: Uuid ensures p in grouped[key] <==> p in ParentSetsOf(relations, persons)[key] {
        assert Grouped(grouped, p, key.0, key.1) <==> Related(relations, persons, p, key.0, key.1);
      }
    }
  }

  lemma ParentSetsGroup(relations: seq<Relation>, persons: Persons)
    ensures Groups(relations, persons, ParentSetsOf(relations, persons))
    ensures forall key :: key in ParentSetsOf(relations, persons) ==> ParentSetsOf(relations, persons)[key] != {}
  {
    var grouped := ParentSetsOf(relations, persons);
    forall p: Uuid, c: Uuid, t: string ensures Related(relations, persons, p, c, t) <==> Grouped(grouped, p, c, t) {
      assert (c, t).0 == c && (c, t).1 == t;
    }
    forall key | key in grouped ensures grouped[key] != {} {
      var r :| r in relations && Translated(r, persons) && (r.child, TypeName(r)) == key;
      assert r.parent in grouped[key];
    }
  }

  // The parents of each child, by type.
  method GroupRelations(relations: seq<Relation>, persons: Persons) returns (grouped: ParentSets)
    ensures Groups(relations, persons, grouped)
    ensures forall key :: key in grouped ==> grouped[key] != {}
  {
    grouped := map[];
    for i := 0 to |relations|
      invariant Groups(relations[..i], persons, grouped)
      invariant forall key :: key in grouped ==> grouped[key] != {}
    {
      var r := relations[i];
      ghost var before := grouped;
      if Translated(r, persons) {
        var key := (r.child, TypeName(r));
        grouped := WithParent(grouped, key, r.parent);
      }
      GroupsStep(relations, persons, i, before, grouped);
    }
    assert relations[..|relations|] == relations;
  }

  ghost predicate InGroups(groups: seq<Group>, p: Uuid, c: Uuid, t: string) {
    exists g :: g in groups && g.child == c && g.relationType == t && p in g.parents
  }

  ghost predicate GroupOk(persons: Persons, g: Group) {
    && g.child in persons && g.parents != [] && Distinct(g.parents)
    && forall p :: p in g.parents ==> p in persons && p != g.child
  }

  ghost predicate KeysDistinct(groups: seq<Group>) {
    forall i, j :: 0 <= i < j < |groups| ==> groups[i].child != groups[j].child || groups[i].relationType != groups[j].relationType
  }

  lemma KeyIsUsable(relations: seq<Relation>, persons: Persons, grouped: ParentSets, key: (Uuid, string))
    requires Groups(relations, persons, grouped) && key in grouped && grouped[key] != {}
    ensures key.0 in persons && forall p :: p in grouped[key] ==> p in persons && p != key.0
  {
    forall p | p in grouped[key] ensures key.0 in persons && p in persons && p != key.0 {
      assert key == (key.0, key.1);
      assert Related(relations, persons, p, key.0, key.1);
    }
    var p :| p in grouped[key];
  }

  lemma GroupAppended(groups: seq<Group>, g: Group)
    ensures forall p: Uuid, c: Uuid, t: string :: InGroups(groups + [g], p, c, t) <==>
      InGroups(groups, p, c, t) || (g.child == c && g.relationType == t && p in g.parents)
  {
    var longer := groups + [g];
    assert longer[|groups|] == g;
    assert forall h :: h in groups ==> h in longer;
    assert forall h :: h in longer ==> h in groups || h == g;
  }

  // Groups come by child, then by type.
  function GroupOrder(): ((Uuid, string), (Uuid, string)) -> bool {
    (a: (Uuid, string), b: (Uuid, string)) => a.0 < b.0 || (a.0 == b.0 && Less(a.1, b.1))
  }

  lemma GroupsAreOrdered()
    ensures TotalOrder(GroupOrder())
  {
    StringsAreOrdered();
    var less := GroupOrder();
    forall a, b ensures !less(a, a) && (a == b || less(a, b) || less(b, a)) {
      assert a == (a.0, a.1) && b == (b.0, b.1);
    }
    forall a, b, c | less(a, b) && less(b, c) ensures less(a, c) {
    }
  }

  ghost function GroupAt(grouped: ParentSets, key: (Uuid, string)): Group {
    Group(key.0, key.1, SortedOf(if key in grouped then grouped[key] else {}))
  }

  ghost function GroupsAt(grouped: ParentSets, keys: seq<(Uuid, string)>): seq<Group> {
    seq(|keys|, i requires 0 <= i < |keys| => GroupAt(grouped, keys[i]))
  }

  lemma GroupIsGood(relations: seq<Relation>, persons: Persons, grouped: ParentSets, key: (Uuid, string))
    requires Groups(relations, persons, grouped) && key in grouped && grouped[key] != {}
    ensures GroupOk(persons, GroupAt(grouped, key)) && SortedBy(map[], GroupAt(grouped, key).parents)
  {
    KeyIsUsable(relations, persons, grouped, key);
    SortedIsWhole(grouped[key]);
    var p :| p in grouped[key];
    assert p in GroupAt(grouped, key).parents;
  }

  ghost function GroupsOf(grouped: ParentSets): seq<Group> {
    GroupsAreOrdered();
    GroupsAt(grouped, Arranged(GroupOrder(), grouped.Keys))
  }

  // What the groups of some keys say, one after the other.
  lemma {:induction false} GroupsAreGood(relations: seq<Relation>, persons: Persons, grouped: ParentSets, keys: seq<(Uuid, string)>)
    requires Groups(relations, persons, grouped) && forall key :: key in grouped ==> grouped[key] != {}
    requires Ascending(GroupOrder(), keys) && TotalOrder(GroupOrder()) && forall key :: key in keys ==> key in grouped
    ensures var groups := GroupsAt(grouped, keys);
      && KeysDistinct(groups) && (forall g :: g in groups ==> GroupOk(persons, g) && SortedBy(map[], g.parents))
      && forall p: Uuid, c: Uuid, t: string :: InGroups(groups, p, c, t) <==> (c, t) in keys && p in grouped[(c, t)]
  {
    var groups := GroupsAt(grouped, keys);
    forall i, j | 0 <= i < j < |keys| ensures keys[i].0 != keys[j].0 || keys[i].1 != keys[j].1 {
      assert GroupOrder()(keys[i], keys[j]);
    }
    forall i | 0 <= i < |keys| ensures GroupOk(persons, groups[i]) && SortedBy(map[], groups[i].parents) {
      GroupIsGood(relations, persons, grouped, keys[i]);
    }
    forall p: Uuid, c: Uuid, t: string
      ensures InGroups(groups, p, c, t) <==> (c, t) in keys && p in grouped[(c, t)]
    {
      if (c, t) in keys && p in grouped[(c, t)] {
        var i :| 0 <= i < |keys| && keys[i] == (c, t);
        SortedIsWhole(grouped[(c, t)]);
        assert groups[i] in groups;
      }
      if InGroups(groups, p, c, t) {
        var i :| 0 <= i < |groups| && groups[i].child == c && groups[i].relationType == t && p in groups[i].parents;
        assert keys[i] == (c, t);
        SortedIsWhole(grouped[keys[i]]);
      }
    }
  }

  // All relations are in these groups, and nothing else.
  lemma GroupsHoldRelations(relations: seq<Relation>, persons: Persons, grouped: ParentSets)
    requires Groups(relations, persons, grouped) && forall key :: key in grouped ==> grouped[key] != {}
    ensures var groups := GroupsOf(grouped);
      && KeysDistinct(groups) && (forall g :: g in groups ==> GroupOk(persons, g) && SortedBy(map[], g.parents))
      && forall p: Uuid, c: Uuid, t: string :: InGroups(groups, p, c, t) <==> Related(relations, persons, p, c, t)
  {
    GroupsAreOrdered();
    ArrangedAscends(GroupOrder(), grouped.Keys);
    GroupsAreGood(relations, persons, grouped, Arranged(GroupOrder(), grouped.Keys));
    forall p: Uuid, c: Uuid, t: string
      ensures InGroups(GroupsOf(grouped), p, c, t) <==> Related(relations, persons, p, c, t)
    {
      assert Related(relations, persons, p, c, t) <==> Grouped(grouped, p, c, t);
    }
  }

  lemma NextGroup(grouped: ParentSets, keys: seq<(Uuid, string)>, i: nat)
    requires i < |keys|
    ensures GroupsAt(grouped, keys[..i + 1]) == GroupsAt(grouped, keys[..i]) + [GroupAt(grouped, keys[i])]
  {
  }

  method SortGroups(grouped: ParentSets) returns (groups: seq<Group>)
    ensures groups == GroupsOf(grouped)
  {
    GroupsAreOrdered();
    ArrangedAscends(GroupOrder(), grouped.Keys);
    var keys := SortedKeys(GroupOrder(), grouped.Keys);
    groups := [];
    for i := 0 to |keys|
      invariant groups == GroupsAt(grouped, keys[..i])
    {
      NextGroup(grouped, keys, i);
      PrefixGrows(keys, i);
      var parents := SortedIds(grouped[keys[i]]);
      groups := groups + [Group(keys[i].0, keys[i].1, parents)];
    }
    assert keys[..|keys|] == keys;
  }

  // One group per child and type, in order, its parents ascending.
  method RelationGroups(relations: seq<Relation>, persons: Persons) returns (groups: seq<Group>)
    ensures KeysDistinct(groups) && forall g :: g in groups ==> GroupOk(persons, g) && SortedBy(map[], g.parents)
    ensures forall p: Uuid, c: Uuid, t: string :: InGroups(groups, p, c, t) <==> Related(relations, persons, p, c, t)
    ensures groups == GroupsOf(ParentSetsOf(relations, persons))
  {
    var grouped := GroupRelations(relations, persons);
    groups := SortGroups(grouped);
    ParentSetsAre(relations, persons, grouped);
    GroupsHoldRelations(relations, persons, grouped);
  }

  // ---- From relations to families ----

  lemma SameSize(a: seq<Uuid>, b: seq<Uuid>)
    requires 1 <= |a| <= 2 && 1 <= |b| <= 2 && Distinct(a) && Distinct(b) && SameMembers(a, b)
    ensures |a| == |b|
  {
    assert a[0] in b && a[|a| - 1] in b && b[0] in a && b[|b| - 1] in a;
  }

  // The first family with exactly these partners that does not list the child yet; |families| stands for none.
  method MatchingFamily(families: seq<Family>, parents: seq<Uuid>, child: Uuid) returns (k: nat)
    requires 1 <= |parents| <= 2 && Distinct(parents)
    requires forall f :: f in families ==> 1 <= |f.partners| <= 2 && Distinct(f.partners)
    ensures k <= |families|
    ensures k < |families| ==> child !in families[k].childLinks && SameMembers(families[k].partners, parents)
    ensures forall j :: 0 <= j < k ==> child in families[j].childLinks || !SameMembers(families[j].partners, parents)
  {
    k := 0;
    while k < |families|
      invariant 0 <= k <= |families|
      invariant forall j :: 0 <= j < k ==> child in families[j].childLinks || !SameMembers(families[j].partners, parents)
    {
      var f := families[k];
      assert f in families;
      if child !in f.childLinks {
        if |parents| == 1 && |f.partners| == 1 && parents[0] in f.partners {
          return;
        }
        if |parents| == 2 && |f.partners| == 2 && parents[0] in f.partners && parents[1] in f.partners {
          return;
        }
        assert parents[0] in parents && parents[|parents| - 1] in parents;
        if SameMembers(f.partners, parents) {
          SameSize(f.partners, parents);
        }
      }
      k := k + 1;
    }
  }

  ghost predicate Fits(f: Family, parents: seq<Uuid>, child: Uuid) {
    child !in f.childLinks && SameMembers(f.partners, parents)
  }

  ghost function FirstFit(families: seq<Family>, parents: seq<Uuid>, child: Uuid): (k: nat)
    ensures k <= |families|
  {
    if families == [] || Fits(families[0], parents, child) then 0 else 1 + FirstFit(families[1..], parents, child)
  }

  lemma {:induction false} FirstFitIs(families: seq<Family>, parents: seq<Uuid>, child: Uuid, k: nat)
    requires k <= |families| && (k < |families| ==> Fits(families[k], parents, child))
    requires forall j :: 0 <= j < k ==> !Fits(families[j], parents, child)
    ensures k == FirstFit(families, parents, child)
  {
    if k > 0 {
      FirstFitIs(families[1..], parents, child, k - 1);
    }
  }

  function PartnersOf(pair: seq<Uuid>, persons: Persons): seq<Uuid> {
    if 1 <= |pair| <= 2 && Distinct(pair) then OrderedPartners(pair, persons) else pair
  }

  // The families after one more chunk of parents of one child.
  ghost function WithChunk(persons: Persons, families: seq<Family>, g: Group, chunk: nat, parents: seq<Uuid>): seq<Family> {
    var k := FirstFit(families, parents, g.child);
    var x := RelationXRef(g.child, g.relationType, chunk, parents);
    var grown := if k == |families| then families + [Family(x, PartnersOf(parents, persons), map[], [], map[])] else families;
    grown[k := WithChild(grown[k], g.child, g.relationType)]
  }

  // Families keep their names and partners; new ones come after them and are not named after unions.
  ghost predicate Extends(families: seq<Family>, next: seq<Family>) {
    && |families| <= |next|
    && (forall i :: 0 <= i < |families| ==> next[i].xref == families[i].xref && next[i].partners == families[i].partners)
    && (forall i :: |families| <= i < |next| ==> next[i].xref.RelationXRef?)
  }

  method AddChunk(persons: Persons, families: seq<Family>, links: Links, g: Group, chunk: nat, parents: seq<Uuid>)
      returns (next: seq<Family>, linked: Links)
    requires Inv(persons, families, links) && GroupOk(persons, g)
    requires 1 <= |parents| <= 2 && Distinct(parents) && forall p :: p in parents ==> p in g.parents
    requires !Uses(families, RelationXRef(g.child, g.relationType, chunk, parents))
    ensures Inv(persons, next, linked) && Extends(families, next)
    ensures forall p: Uuid, c: Uuid, t: string :: Tells(next, p, c, t) <==>
      Tells(families, p, c, t) || (p in parents && c == g.child && t == g.relationType)
    ensures forall x :: Uses(next, x) ==> Uses(families, x) || x == RelationXRef(g.child, g.relationType, chunk, parents)
    ensures next == WithChunk(persons, families, g, chunk, parents)
  {
    next, linked := families, links;
    var k := MatchingFamily(families, parents, g.child);
    FirstFitIs(families, parents, g.child, k);
    if k == |families| {
      var x := RelationXRef(g.child, g.relationType, chunk, parents);
      var f := Family(x, OrderedPartners(parents, persons), map[], [], map[]);
      next := next + [f];
      linked := LinkPartners(linked, parents, x);
      assert linked == WithPartners(links, f.partners, x);
      FamilyKeepsInv(persons, families, links, f);
      TellsAfterAppend(families, f);
    }
    assert next[k] in next;
    assert SameMembers(next[k].partners, parents);
    ChildKeepsInv(persons, next, linked, k, g.child, g.relationType);
    TellsAfterChild(next, k, g.child, g.relationType);
    next, linked := next[k := WithChild(next[k], g.child, g.relationType)],
                    WithChildLink(linked, g.child, next[k].xref, g.relationType);
  }

  // ---- All relations ----

  // The families' relation names come from groups before gi, or from chunks before n of group gi.
  ghost predicate NamedBefore(families: seq<Family>, groups: seq<Group>, gi: nat, n: nat) {
    forall x :: Uses(families, x) && x.RelationXRef? ==>
      || (exists j :: 0 <= j < gi && j < |groups| && groups[j].child == x.child && groups[j].relationType == x.relationType)
      || (gi < |groups| && groups[gi].child == x.child && groups[gi].relationType == x.relationType && x.chunk < n)
  }

  lemma NameIsFree(families: seq<Family>, groups: seq<Group>, gi: nat, n: nat, parents: seq<Uuid>)
    requires NamedBefore(families, groups, gi, n) && gi < |groups| && KeysDistinct(groups)
    ensures !Uses(families, RelationXRef(groups[gi].child, groups[gi].relationType, n, parents))
  {
  }

  lemma ChunkUsable(ids: seq<Uuid>, k: nat)
    requires Distinct(ids) && 2 * k < |ids|
    ensures 1 <= |ChunkAt(ids, k)| <= 2 && Distinct(ChunkAt(ids, k))
    ensures forall p :: p in ChunkAt(ids, k) ==> p in ids
  {
    var chunk := ChunkAt(ids, k);
    forall i | 0 <= i < |chunk| ensures chunk[i] == ids[2 * k + i] {
    }
  }

  lemma ExtendsIsTransitive(a: seq<Family>, b: seq<Family>, c: seq<Family>)
    requires Extends(a, b) && Extends(b, c)
    ensures Extends(a, c)
  {
  }

  ghost function WithChunks(persons: Persons, families: seq<Family>, g: Group, n: nat): seq<Family>
    requires 2 * n <= |g.parents| + 1
  {
    if n == 0 then families
    else WithChunk(persons, WithChunks(persons, families, g, n - 1), g, n - 1, ChunkAt(g.parents, n - 1))
  }

  ghost function WithGroup(persons: Persons, families: seq<Family>, g: Group): seq<Family> {
    WithChunks(persons, families, g, (|g.parents| + 1) / 2)
  }

  // The families tell what they told before, and the relations of the first k chunks.
  ghost predicate ToldChunks(families: seq<Family>, next: seq<Family>, g: Group, k: nat) {
    forall p: Uuid, c: Uuid, t: string :: Tells(next, p, c, t) <==>
      Tells(families, p, c, t) ||
      (c == g.child && t == g.relationType && exists n :: 0 <= n < k && 2 * n < |g.parents| && p in ChunkAt(g.parents, n))
  }

  lemma NextChunkTold(families: seq<Family>, before: seq<Family>, next: seq<Family>, g: Group, k: nat)
    requires ToldChunks(families, before, g, k) && 2 * k < |g.parents|
    requires forall p: Uuid, c: Uuid, t: string :: Tells(next, p, c, t) <==>
      Tells(before, p, c, t) || (p in ChunkAt(g.parents, k) && c == g.child && t == g.relationType)
    ensures ToldChunks(families, next, g, k + 1)
  {
    forall p: Uuid
      ensures (exists n :: 0 <= n < k + 1 && 2 * n < |g.parents| && p in ChunkAt(g.parents, n)) <==>
        (exists n :: 0 <= n < k && 2 * n < |g.parents| && p in ChunkAt(g.parents, n)) || p in ChunkAt(g.parents, k)
    {
    }
  }

  // The first k chunks of a group have their families.
  ghost predicate ChunksAdded(persons: Persons, families: seq<Family>, next: seq<Family>, g: Group, k: nat)
    requires 2 * k <= |g.parents| + 1
  {
    next == WithChunks(persons, families, g, k) && ToldChunks(families, next, g, k) && Extends(families, next)
  }

  lemma NextChunkAdded(persons: Persons, families: seq<Family>, before: seq<Family>, next: seq<Family>, g: Group, k: nat)
    requires 2 * k < |g.parents| && ChunksAdded(persons, families, before, g, k)
    requires next == WithChunk(persons, before, g, k, ChunkAt(g.parents, k)) && Extends(before, next)
    requires forall p: Uuid, c: Uuid, t: string :: Tells(next, p, c, t) <==>
      Tells(before, p, c, t) || (p in ChunkAt(g.parents, k) && c == g.child && t == g.relationType)
    ensures ChunksAdded(persons, families, next, g, k + 1)
  {
    ExtendsIsTransitive(families, before, next);
    NextChunkTold(families, before, next, g, k);
  }

  lemma AllChunksTold(families: seq<Family>, next: seq<Family>, g: Group, n: nat)
    requires ToldChunks(families, next, g, n) && n == (|g.parents| + 1) / 2
    ensures forall p: Uuid, c: Uuid, t: string :: Tells(next, p, c, t) <==>
      Tells(families, p, c, t) || (p in g.parents && c == g.child && t == g.relationType)
  {
    forall p: Uuid
      ensures p in g.parents <==> exists k :: 0 <= k < n && 2 * k < |g.parents| && p in ChunkAt(g.parents, k)
    {
      ChunksCover(g.parents, n, p);
      assert g.parents[..|g.parents|] == g.parents;
    }
  }

  // One more chunk of a group.
  method AddNextChunk(persons: Persons, ghost families: seq<Family>, before: seq<Family>, links: Links, ghost groups: seq<Group>,
                      ghost gi: nat, g: Group, k: nat, chunk: seq<Uuid>)
      returns (next: seq<Family>, linked: Links)
    requires Inv(persons, before, links) && GroupOk(persons, g) && 2 * k < |g.parents| && chunk == ChunkAt(g.parents, k)
    requires gi < |groups| && groups[gi] == g && KeysDistinct(groups) && NamedBefore(before, groups, gi, k)
    requires ChunksAdded(persons, families, before, g, k)
    ensures Inv(persons, next, linked) && NamedBefore(next, groups, gi, k + 1) && ChunksAdded(persons, families, next, g, k + 1)
  {
    ChunkUsable(g.parents, k);
    NameIsFree(before, groups, gi, k, chunk);
    next, linked := AddChunk(persons, before, links, g, k, chunk);
    NextChunkAdded(persons, families, before, next, g, k);
  }

  // All chunks of one group.
  method AddGroup(persons: Persons, families: seq<Family>, links: Links, ghost groups: seq<Group>, ghost gi: nat, g: Group)
      returns (next: seq<Family>, linked: Links)
    requires Inv(persons, families, links) && GroupOk(persons, g)
    requires gi < |groups| && groups[gi] == g && KeysDistinct(groups) && NamedBefore(families, groups, gi, 0)
    ensures Inv(persons, next, linked) && Extends(families, next) && NamedBefore(next, groups, gi + 1, 0)
    ensures forall p: Uuid, c: Uuid, t: string :: Tells(next, p, c, t) <==>
      Tells(families, p, c, t) || (p in g.parents && c == g.child && t == g.relationType)
    ensures next == WithGroup(persons, families, g)
  {
    next, linked := families, links;
    var chunks := ParentChunks(g.parents);
    for k := 0 to |chunks|
      invariant Inv(persons, next, linked) && NamedBefore(next, groups, gi, k)
      invariant ChunksAdded(persons, families, next, g, k)
    {
      next, linked := AddNextChunk(persons, families, next, linked, groups, gi, g, k, chunks[k]);
    }
    AllChunksTold(families, next, g, |chunks|);
  }

  lemma InGroupsStep(groups: seq<Group>, i: nat)
    requires i < |groups|
    ensures forall p: Uuid, c: Uuid, t: string :: InGroups(groups[..i + 1], p, c, t) <==>
      InGroups(groups[..i], p, c, t) || (groups[i].child == c && groups[i].relationType == t && p in groups[i].parents)
  {
    assert groups[..i + 1] == groups[..i] + [groups[i]];
    GroupAppended(groups[..i], groups[i]);
  }

  lemma NothingToldYet(persons: Persons, families: seq<Family>)
    requires forall f :: f in families ==> WellFormed(persons, f) && f.xref.UnionXRef? && f.children == []
    ensures forall p: Uuid, c: Uuid, t: string :: !Tells(families, p, c, t)
    ensures forall x :: Uses(families, x) ==> x.UnionXRef?
  {
    forall i, c | 0 <= i < |families| ensures c !in families[i].childLinks && families[i].xref.UnionXRef? {
      assert families[i] in families;
      assert c !in families[i].children;
    }
  }

  ghost function WithGroups(persons: Persons, families: seq<Family>, groups: seq<Group>): seq<Family> {
    if groups == [] then families
    else WithGroup(persons, WithGroups(persons, families, groups[..|groups| - 1]), groups[|groups| - 1])
  }

  lemma WithNextGroup(persons: Persons, families: seq<Family>, groups: seq<Group>, i: nat)
    requires i < |groups|
    ensures WithGroups(persons, families, groups[..i + 1]) == WithGroup(persons, WithGroups(persons, families, groups[..i]), groups[i])
  {
    assert groups[..i + 1][..i] == groups[..i];
  }

  method AddParentChildFamilies(relations: seq<Relation>, persons: Persons, families: seq<Family>, links: Links)
      returns (next: seq<Family>, linked: Links)
    requires Inv(persons, families, links)
    requires forall f :: f in families ==> f.xref.UnionXRef? && f.children == []
    ensures Inv(persons, next, linked) && Extends(families, next)
    ensures forall p: Uuid, c: Uuid, t: string :: Tells(next, p, c, t) <==> Related(relations, persons, p, c, t)
    ensures next == WithGroups(persons, families, GroupsOf(ParentSetsOf(relations, persons)))
  {
    next, linked := families, links;
    var groups := RelationGroups(relations, persons);
    NothingToldYet(persons, families);
    assert forall p: Uuid, c: Uuid, t: string :: !InGroups(groups[..0], p, c, t);
    for i := 0 to |groups|
      invariant Inv(persons, next, linked) && Extends(families, next) && NamedBefore(next, groups, i, 0)
      invariant next == WithGroups(persons, families, groups[..i])
      invariant forall p: Uuid, c: Uuid, t: string :: Tells(next, p, c, t) <==> InGroups(groups[..i], p, c, t)
    {
      ghost var before := next;
      assert groups[i] in groups;
      next, linked := AddGroup(persons, next, linked, groups, i, groups[i]);
      ExtendsIsTransitive(families, before, next);
      InGroupsStep(groups, i);
      WithNextGroup(persons, families, groups, i);
    }
    assert groups[..|groups|] == groups;
  }
}
