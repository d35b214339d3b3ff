/** Unions turned into families, and the whole translation of a snapshot into families. */
module GedcomUnions {
  import opened Graphs
  import opened Manifest
  import opened Ordering
  import opened GedcomFamilies
  import opened GedcomRelations

  // ---- Members ----

  // A union is translated when any row with its ID is not deleted.
  ghost predicate UnionTranslated(unions: seq<Union>, u: Uuid) {
    u != 0 && exists n :: n in unions && n.id == u && !n.deleted
  }

  ghost predicate ActiveMember(unions: seq<Union>, members: seq<UnionMember>, persons: Persons, u: Uuid, p: Uuid) {
    UnionTranslated(unions, u) && p in persons && exists m :: m in members && m.unionId == u && m.personId == p
  }

  type Roles = map<Uuid, map<Uuid, string>>

  function RolesOf(roles: Roles, u: Uuid): map<Uuid, string> {
    if u in roles then roles[u] else map[]
  }

  ghost predicate RolesClean(roles: Roles) {
    forall u :: u in roles ==> forall p :: p in roles[u] ==> GedcomLines.Clean(roles[u][p])
  }

  lemma UnionStep(unions: seq<Union>, i: nat)
    requires i < |unions|
    ensures forall u :: UnionTranslated(unions[..i + 1], u) <==>
      UnionTranslated(unions[..i], u) || (u != 0 && u == unions[i].id && !unions[i].deleted)
  {
    var before, after := unions[..i], unions[..i + 1];
    assert after == before + [unions[i]];
    assert unions[i] in after;
    forall u ensures UnionTranslated(after, u) <==>
      UnionTranslated(before, u) || (u != 0 && u == unions[i].id && !unions[i].deleted)
    {
      if UnionTranslated(before, u) {
        var n :| n in before && n.id == u && !n.deleted;
        assert n in after;
      }
    }
  }

  lemma MemberStep(unions: seq<Union>, members: seq<UnionMember>, persons: Persons, i: nat, u: Uuid, p: Uuid)
    requires i < |members|
    ensures ActiveMember(unions, members[..i + 1], persons, u, p) <==>
      || ActiveMember(unions, members[..i], persons, u, p)
      || (UnionTranslated(unions, u) && p in persons && members[i].unionId == u && members[i].personId == p)
  {
    assert members[..i + 1] == members[..i] + [members[i]];
    assert members[i] in members[..i + 1];
  }

  ghost function UnionIds(unions: seq<Union>): set<Uuid> {
    set n | n in unions && n.id != 0 && !n.deleted :: n.id
  }

  function WithRole(active: set<Uuid>, persons: Persons, roles: Roles, m: UnionMember): Roles {
    if m.unionId in active && m.personId in persons
    then roles[m.unionId := RolesOf(roles, m.unionId)[m.personId := GedcomLines.CleanInline(m.role)]] else roles
  }

  ghost function CollectedRoles(active: set<Uuid>, persons: Persons, members: seq<UnionMember>): Roles {
    if members == [] then map[]
    else WithRole(active, persons, CollectedRoles(active, persons, members[..|members| - 1]), members[|members| - 1])
  }

  lemma NextRoleCollected(active: set<Uuid>, persons: Persons, members: seq<UnionMember>, i: nat)
    requires i < |members|
    ensures CollectedRoles(active, persons, members[..i + 1]) ==
            WithRole(active, persons, CollectedRoles(active, persons, members[..i]), members[i])
  {
    assert members[..i + 1][..i] == members[..i];
  }

  // The translated unions and the roles of their active members; the last row of a member wins.
  method CollectMembers(unions: seq<Union>, members: seq<UnionMember>, persons: Persons) returns (active: set<Uuid>, roles: Roles)
    ensures forall u :: u in active <==> UnionTranslated(unions, u)
    ensures forall u, p :: p in RolesOf(roles, u) <==> ActiveMember(unions, members, persons, u, p)
    ensures RolesClean(roles)
    ensures active == UnionIds(unions) && roles == CollectedRoles(active, persons, members)
  {
    active := {};
    for i := 0 to |unions|
      invariant forall u :: u in active <==> UnionTranslated(unions[..i], u)
    {
      assert unions[..i + 1] == unions[..i] + [unions[i]];
      UnionStep(unions, i);
      if unions[i].id != 0 && !unions[i].deleted {
        active := active + {unions[i].id};
      }
    }
    assert unions[..|unions|] == unions;
    roles := map[];
    for i := 0 to |members|
      invariant forall u, p :: p in RolesOf(roles, u) <==> ActiveMember(unions, members[..i], persons, u, p)
      invariant RolesClean(roles) && roles == CollectedRoles(active, persons, members[..i])
    {
      NextRoleCollected(active, persons, members, i);
      var m := members[i];
      ghost var before := roles;
      GedcomLines.CleanInlineIsClean(m.role);
      if m.unionId in active && m.personId in persons {
        roles := roles[m.unionId := RolesOf(roles, m.unionId)[m.personId := GedcomLines.CleanInline(m.role)]];
      }
      forall u, p ensures p in RolesOf(roles, u) <==> ActiveMember(unions, members[..i + 1], persons, u, p) {
        MemberStep(unions, members, persons, i, u, p);
        assert p in RolesOf(before, u) <==> ActiveMember(unions, members[..i], persons, u, p);
      }
    }
    assert members[..|members|] == members;
  }

  ghost predicate UnionsNamed(families: seq<Family>, done: set<Uuid>, u: Uuid, n: nat) {
    forall x :: Uses(families, x) ==> x.UnionXRef? && (x.unionId in done || (x.unionId == u && x.index < n))
  }

  lemma UnionListsAppend(families: seq<Family>, f: Family)
    requires f.xref.UnionXRef?
    ensures forall u, p :: UnionLists(families + [f], u, p) <==> UnionLists(families, u, p) || (u == f.xref.unionId && p in f.partners)
  {
    var longer := families + [f];
    forall u, p ensures UnionLists(longer, u, p) <==> UnionLists(families, u, p) || (u == f.xref.unionId && p in f.partners) {
      if UnionLists(families, u, p) {
        var i :| 0 <= i < |families| && families[i].xref.UnionXRef? && families[i].xref.unionId == u && p in families[i].partners;
        assert longer[i] == families[i];
      }
      if u == f.xref.unionId && p in f.partners {
        assert longer[|families|] == f;
      }
    }
  }

  lemma UsesAppend(families: seq<Family>, f: Family)
    ensures forall x :: Uses(families + [f], x) <==> Uses(families, x) || x == f.xref
  {
    var longer := families + [f];
    assert longer[|families|] == f;
    forall x ensures Uses(longer, x) <==> Uses(families, x) || x == f.xref {
      if Uses(families, x) {
        var i :| 0 <= i < |families| && families[i].xref == x;
        assert longer[i].xref == x;
      }
    }
  }

  ghost predicate Childless(families: seq<Family>) {
    forall f :: f in families ==> f.xref.UnionXRef? && f.children == []
  }

  function PairFamily(persons: Persons, x: XRef, pair: seq<Uuid>, roles: map<Uuid, string>): Family {
    Family(x, PartnersOf(pair, persons), map p | p in pair && p in roles :: roles[p], [], map[])
  }

  method AddPair(persons: Persons, families: seq<Family>, links: Links, x: XRef, pair: seq<Uuid>, roles: map<Uuid, string>)
      returns (next: seq<Family>, linked: Links)
    requires Inv(persons, families, links) && Childless(families)
    requires 1 <= |pair| <= 2 && Distinct(pair) && forall p :: p in pair ==> p in roles
    requires forall p :: p in roles ==> p in persons && GedcomLines.Clean(roles[p])
    requires x.UnionXRef? && !Uses(families, x)
    ensures Inv(persons, next, linked) && Childless(next)
    ensures forall y :: Uses(next, y) <==> Uses(families, y) || y == x
    ensures forall v, p :: UnionLists(next, v, p) <==> UnionLists(families, v, p) || (v == x.unionId && p in pair)
    ensures next == families + [PairFamily(persons, x, pair, roles)]
  {
    var partnerRoles := map p | p in pair :: roles[p];
    var f := Family(x, OrderedPartners(pair, persons), partnerRoles, [], map[]);
    assert f == PairFamily(persons, x, pair, roles);
    FamilyKeepsInv(persons, families, links, f);
    UnionListsAppend(families, f);
    UsesAppend(families, f);
    next := families + [f];
    linked := LinkPartners(links, pair, x);
  }

  // The families grew by the first k pairs of one union.
  ghost predicate GrewByPairs(families: seq<Family>, next: seq<Family>, u: Uuid, pairs: seq<seq<Uuid>>, k: int)
    requires k <= |pairs|
  {
    forall v, p :: UnionLists(next, v, p) <==> UnionLists(families, v, p) || (v == u && InPairs(pairs, k, p))
  }

  lemma NextPairGrown(families: seq<Family>, before: seq<Family>, after: seq<Family>, u: Uuid, pairs: seq<seq<Uuid>>, k: nat)
    requires k < |pairs| && GrewByPairs(families, before, u, pairs, k)
    requires forall v, p :: UnionLists(after, v, p) <==> UnionLists(before, v, p) || (v == u && p in pairs[k])
    ensures GrewByPairs(families, after, u, pairs, k + 1)
  {
    PairAdded(pairs, k);
  }

  // The families of the first k pairs of a union.
  ghost function PairFamilies(persons: Persons, u: Uuid, pairs: seq<seq<Uuid>>, roles: map<Uuid, string>): seq<Family> {
    seq(|pairs|, k requires 0 <= k < |pairs| => PairFamily(persons, UnionXRef(u, k), pairs[k], roles))
  }

  ghost function FamiliesOfUnion(persons: Persons, u: Uuid, roles: map<Uuid, string>): seq<Family> {
    if roles == map[] then [] else PairFamilies(persons, u, PairsOf(SortedOf(roles.Keys)), roles)
  }

  lemma NextPairFamily(persons: Persons, families: seq<Family>, u: Uuid, pairs: seq<seq<Uuid>>, roles: map<Uuid, string>, k: nat)
    requires k < |pairs|
    ensures families + PairFamilies(persons, u, pairs[..k], roles) + [PairFamily(persons, UnionXRef(u, k), pairs[k], roles)] ==
            families + PairFamilies(persons, u, pairs[..k + 1], roles)
  {
    assert PairFamilies(persons, u, pairs[..k + 1], roles) ==
      PairFamilies(persons, u, pairs[..k], roles) + [PairFamily(persons, UnionXRef(u, k), pairs[k], roles)];
  }

  // The first k pairs of a union have their families.
  ghost predicate PairsAdded(persons: Persons, families: seq<Family>, next: seq<Family>, u: Uuid, pairs: seq<seq<Uuid>>,
                             roles: map<Uuid, string>, k: nat)
    requires k <= |pairs|
  {
    next == families + PairFamilies(persons, u, pairs[..k], roles) && GrewByPairs(families, next, u, pairs, k)
  }

  lemma NextPairAdded(persons: Persons, families: seq<Family>, before: seq<Family>, next: seq<Family>, u: Uuid,
                      pairs: seq<seq<Uuid>>, roles: map<Uuid, string>, k: nat)
    requires k < |pairs| && PairsAdded(persons, families, before, u, pairs, roles, k)
    requires next == before + [PairFamily(persons, UnionXRef(u, k), pairs[k], roles)]
    requires forall v, p :: UnionLists(next, v, p) <==> UnionLists(before, v, p) || (v == u && p in pairs[k])
    ensures PairsAdded(persons, families, next, u, pairs, roles, k + 1)
  {
    NextPairGrown(families, before, next, u, pairs, k);
    NextPairFamily(persons, families, u, pairs, roles, k);
  }

  // One family for each pair of a union's members.
  method AddPairs(persons: Persons, families: seq<Family>, links: Links, u: Uuid, pairs: seq<seq<Uuid>>, roles: map<Uuid, string>,
                  ghost done: set<Uuid>)
      returns (next: seq<Family>, linked: Links)
    requires Inv(persons, families, links) && Childless(families)
    requires forall p :: p in roles ==> p in persons && GedcomLines.Clean(roles[p])
    requires forall k :: 0 <= k < |pairs| ==>
      1 <= |pairs[k]| <= 2 && Distinct(pairs[k]) && forall p :: p in pairs[k] ==> p in roles
    requires u !in done && UnionsNamed(families, done, u, 0)
    ensures Inv(persons, next, linked) && Childless(next) && UnionsNamed(next, done, u, |pairs|)
    ensures PairsAdded(persons, families, next, u, pairs, roles, |pairs|)
  {
    next, linked := families, links;
    for k := 0 to |pairs|
      invariant Inv(persons, next, linked) && Childless(next) && UnionsNamed(next, done, u, k)
      invariant PairsAdded(persons, families, next, u, pairs, roles, k)
    {
      ghost var before := next;
      next, linked := AddPair(persons, next, linked, UnionXRef(u, k), pairs[k], roles);
      NextPairAdded(persons, families, before, next, u, pairs, roles, k);
    }
  }

  lemma PairsWithin(ids: seq<Uuid>, pairs: seq<seq<Uuid>>)
    requires forall p :: p in ids <==> InPairs(pairs, |pairs|, p)
    ensures forall k, p :: 0 <= k < |pairs| && p in pairs[k] ==> p in ids
  {
    forall k, p | 0 <= k < |pairs| && p in pairs[k] ensures p in ids {
      assert InPairs(pairs, |pairs|, p);
    }
  }

  lemma AllPairsAdded(persons: Persons, families: seq<Family>, next: seq<Family>, u: Uuid, roles: map<Uuid, string>)
    requires var pairs := PairsOf(SortedOf(roles.Keys));
      && roles != map[] && PairsAdded(persons, families, next, u, pairs, roles, |pairs|)
      && forall p :: p in SortedOf(roles.Keys) <==> InPairs(pairs, |pairs|, p)
    ensures forall v, p :: UnionLists(next, v, p) <==> UnionLists(families, v, p) || (v == u && p in roles)
    ensures next == families + FamiliesOfUnion(persons, u, roles)
  {
    var pairs := PairsOf(SortedOf(roles.Keys));
    SortedIsWhole(roles.Keys);
    assert pairs[..|pairs|] == pairs;
  }

  lemma NoPairs(roles: map<Uuid, string>)
    ensures SortedOf(roles.Keys) == [] <==> roles == map[]
  {
    SortedIsWhole(roles.Keys);
    if roles != map[] {
      var p :| p in roles;
      assert p in SortedOf(roles.Keys);
    }
    if SortedOf(roles.Keys) != [] {
      assert SortedOf(roles.Keys)[0] in roles;
    }
  }

  method AddUnion(persons: Persons, families: seq<Family>, links: Links, u: Uuid, roles: map<Uuid, string>, ghost done: set<Uuid>)
      returns (next: seq<Family>, linked: Links)
    requires Inv(persons, families, links) && Childless(families)
    requires forall p :: p in roles ==> p in persons && GedcomLines.Clean(roles[p])
    requires u !in done && UnionsNamed(families, done, u, 0)
    ensures Inv(persons, next, linked) && Childless(next)
    ensures UnionsNamed(next, done + {u}, 0, 0)
    ensures forall v, p :: UnionLists(next, v, p) <==> UnionLists(families, v, p) || (v == u && p in roles)
    ensures next == families + FamiliesOfUnion(persons, u, roles)
  {
    next, linked := families, links;
    var ids := SortedIds(roles.Keys);
    NoPairs(roles);
    if ids == [] {
      return;
    }
    var pairs := PartnerPairs(ids);
    PairsWithin(ids, pairs);
    next, linked := AddPairs(persons, families, links, u, pairs, roles, done);
    AllPairsAdded(persons, families, next, u, roles);
  }

  ghost function FamiliesOfUnions(persons: Persons, ids: seq<Uuid>, roles: Roles): seq<Family> {
    if ids == [] then []
    else FamiliesOfUnions(persons, ids[..|ids| - 1], roles) + FamiliesOfUnion(persons, ids[|ids| - 1], RolesOf(roles, ids[|ids| - 1]))
  }

  lemma NextUnionFamilies(persons: Persons, ids: seq<Uuid>, roles: Roles, i: nat)
    requires i < |ids|
    ensures FamiliesOfUnions(persons, ids[..i + 1], roles) ==
            FamiliesOfUnions(persons, ids[..i], roles) + FamiliesOfUnion(persons, ids[i], RolesOf(roles, ids[i]))
  {
    assert ids[..i + 1][..i] == ids[..i];
  }

  ghost function UnionFamilies(persons: Persons, unions: seq<Union>, members: seq<UnionMember>): seq<Family> {
    FamiliesOfUnions(persons, SortedOf(UnionIds(unions)), CollectedRoles(UnionIds(unions), persons, members))
  }

  // The first i unions have their families.
  ghost predicate UnionsAdded(persons: Persons, families: seq<Family>, ids: seq<Uuid>, roles: Roles, i: nat)
    requires i <= |ids|
  {
    && families == FamiliesOfUnions(persons, ids[..i], roles)
    && (forall u, p :: UnionLists(families, u, p) <==> u in ids[..i] && p in RolesOf(roles, u))
  }

  lemma NextUnionAdded(persons: Persons, before: seq<Family>, next: seq<Family>, ids: seq<Uuid>, roles: Roles, i: nat)
    requires i < |ids| && UnionsAdded(persons, before, ids, roles, i)
    requires next == before + FamiliesOfUnion(persons, ids[i], RolesOf(roles, ids[i]))
    requires forall v, p :: UnionLists(next, v, p) <==> UnionLists(before, v, p) || (v == ids[i] && p in RolesOf(roles, ids[i]))
    ensures UnionsAdded(persons, next, ids, roles, i + 1)
  {
    NextUnionFamilies(persons, ids, roles, i);
    PrefixGrows(ids, i);
  }

  method AddUnions(persons: Persons, ids: seq<Uuid>, roles: Roles) returns (families: seq<Family>, links: Links)
    requires Distinct(ids) && RolesClean(roles) && forall u, p :: u in ids && p in RolesOf(roles, u) ==> p in persons
    ensures Inv(persons, families, links) && Childless(families) && UnionsAdded(persons, families, ids, roles, |ids|)
  {
    families := [];
    links := map p | p in persons :: PersonLinks({}, map[]);
    ghost var done: set<Uuid> := {};
    for i := 0 to |ids|
      invariant Inv(persons, families, links) && Childless(families) && UnionsNamed(families, done, 0, 0)
      invariant forall u :: u in done <==> u in ids[..i]
      invariant UnionsAdded(persons, families, ids, roles, i)
    {
      PrefixGrows(ids, i);
      ghost var before := families;
      families, links := AddUnion(persons, families, links, ids[i], RolesOf(roles, ids[i]), done);
      NextUnionAdded(persons, before, families, ids, roles, i);
      done := done + {ids[i]};
    }
  }

  method BuildUnionFamilies(persons: Persons, unions: seq<Union>, members: seq<UnionMember>)
      returns (families: seq<Family>, links: Links)
    ensures Inv(persons, families, links) && Childless(families)
    ensures forall u, p :: UnionLists(families, u, p) <==> ActiveMember(unions, members, persons, u, p)
    ensures families == UnionFamilies(persons, unions, members)
  {
    var active, roles := CollectMembers(unions, members, persons);
    var ids := SortedIds(active);
    forall u, p | p in RolesOf(roles, u) ensures p in persons && u in active {
      assert ActiveMember(unions, members, persons, u, p);
    }
    families, links := AddUnions(persons, ids, roles);
    assert ids[..|ids|] == ids;
    forall u, p ensures UnionLists(families, u, p) <==> ActiveMember(unions, members, persons, u, p) {
      assert p in RolesOf(roles, u) <==> ActiveMember(unions, members, persons, u, p);
    }
  }

  lemma ExtensionKeepsUnions(families: seq<Family>, next: seq<Family>, u: Uuid, p: Uuid)
    requires Extends(families, next)
    ensures UnionLists(next, u, p) <==> UnionLists(families, u, p)
  {
    if UnionLists(families, u, p) {
      var i :| 0 <= i < |families| && families[i].xref.UnionXRef? && families[i].xref.unionId == u && p in families[i].partners;
      assert next[i].xref == families[i].xref;
    }
  }

  ghost function FamiliesOf(persons: Persons, unions: seq<Union>, members: seq<UnionMember>, grouped: ParentSets): seq<Family> {
    WithGroups(persons, UnionFamilies(persons, unions, members), GroupsOf(grouped))
  }

  // The whole translation: unions first, then the relations, which may join a union's family.
  method BuildFamilies(persons: Persons, unions: seq<Union>, members: seq<UnionMember>, relations: seq<Relation>)
      returns (families: seq<Family>, links: Links)
    ensures Inv(persons, families, links)
    ensures forall u, p :: UnionLists(families, u, p) <==> ActiveMember(unions, members, persons, u, p)
    ensures forall p: Uuid, c: Uuid, t: string :: Tells(families, p, c, t) <==> Related(relations, persons, p, c, t)
    ensures families == FamiliesOf(persons, unions, members, ParentSetsOf(relations, persons))
  {
    families, links := BuildUnionFamilies(persons, unions, members);
    ghost var before := families;
    families, links := AddParentChildFamilies(relations, persons, families, links);
    forall u, p ensures UnionLists(families, u, p) <==> UnionLists(before, u, p) {
      ExtensionKeepsUnions(before, families, u, p);
    }
  }
}
