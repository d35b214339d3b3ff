/** GEDCOM families: unions and parent-child relations turned into FAM records with links from both sides. */
module GedcomFamilies {
  import opened Graphs
  import opened Manifest
  import opened Ordering
  import GedcomLines

  // A family record is named after its union and pair, or after the relations it stands for. Record names built
  // from a digest are represented by what the digest is taken of.
  datatype XRef =
    | UnionXRef(unionId: Uuid, index: nat)
    | RelationXRef(child: Uuid, relationType: string, chunk: nat, parents: seq<Uuid>)

  datatype Family = Family(xref: XRef, partners: seq<Uuid>, roles: map<Uuid, string>, children: seq<Uuid>,
                           childLinks: map<Uuid, string>)

  datatype PersonLinks = PersonLinks(asPartner: set<XRef>, asChild: map<XRef, string>)

  datatype Group = Group(child: Uuid, relationType: string, parents: seq<Uuid>)

  type Persons = map<Uuid, Person>

  type Links = map<Uuid, PersonLinks>

  // ---- What a list of families says ----

  ghost predicate ListsPartner(families: seq<Family>, x: XRef, p: Uuid) {
    exists i :: 0 <= i < |families| && families[i].xref == x && p in families[i].partners
  }

  ghost predicate ListsChild(families: seq<Family>, x: XRef, c: Uuid, t: string) {
    exists i :: 0 <= i < |families| && families[i].xref == x && c in families[i].childLinks && families[i].childLinks[c] == t
  }

  // Some family has p as partner and c as child with link type t.
  ghost predicate Tells(families: seq<Family>, p: Uuid, c: Uuid, t: string) {
    exists i :: 0 <= i < |families| && p in families[i].partners &&
      c in families[i].childLinks && families[i].childLinks[c] == t
  }

  ghost predicate UnionLists(families: seq<Family>, u: Uuid, p: Uuid) {
    exists i :: 0 <= i < |families| && families[i].xref.UnionXRef? && families[i].xref.unionId == u && p in families[i].partners
  }

  ghost predicate RolesPrintable(f: Family) {
    forall p :: p in f.roles ==> GedcomLines.Clean(f.roles[p])
  }

  // One or two distinct partners, no child twice, no child that is also a partner.
  ghost predicate WellFormed(persons: Persons, f: Family) {
    && 1 <= |f.partners| <= 2 && Distinct(f.partners) && Distinct(f.children) && RolesPrintable(f)
    && (forall p :: p in f.partners ==> p in persons && p !in f.childLinks)
    && (forall c :: c in f.children <==> c in f.childLinks)
    && (forall c :: c in f.childLinks ==> c in persons)
  }

  ghost predicate XRefsDistinct(families: seq<Family>) {
    forall i, j :: 0 <= i < j < |families| ==> families[i].xref != families[j].xref
  }

  // The links of the persons and the lists of the families mirror each other.
  ghost predicate Reciprocal(families: seq<Family>, links: Links) {
    && (forall p, x :: p in links ==> (x in links[p].asPartner <==> ListsPartner(families, x, p)))
    && (forall c, x, t :: c in links ==> (x in links[c].asChild && links[c].asChild[x] == t <==> ListsChild(families, x, c, t)))
  }

  ghost predicate Inv(persons: Persons, families: seq<Family>, links: Links) {
    && links.Keys == persons.Keys
    && XRefsDistinct(families)
    && (forall f :: f in families ==> WellFormed(persons, f))
    && Reciprocal(families, links)
  }

  ghost predicate Uses(families: seq<Family>, x: XRef) {
    exists i :: 0 <= i < |families| && families[i].xref == x
  }

  // ---- Pairs and chunks ----

  predicate Sex(persons: Persons, p: Uuid, sex: string) {
    p in persons && persons[p].sex == sex
  }

  // Ascending, except that a man comes before a woman.
  function OrderedPartners(values: seq<Uuid>, persons: Persons): (ordered: seq<Uuid>)
    requires 1 <= |values| <= 2 && Distinct(values)
    ensures |ordered| == |values| && Distinct(ordered) && forall p :: p in ordered <==> p in values
  {
    if |values| == 1 then values else
    var a := if values[0] < values[1] then values[0] else values[1];
    var b := if values[0] < values[1] then values[1] else values[0];
    if Sex(persons, a, "female") && Sex(persons, b, "male") then [b, a] else [a, b]
  }

  // p stands in one of the first k pairs.
  ghost predicate InPairs(pairs: seq<seq<Uuid>>, k: int, p: Uuid)
    requires k <= |pairs|
  {
    exists n :: 0 <= n < k && p in pairs[n]
  }

  lemma PairAdded(pairs: seq<seq<Uuid>>, k: nat)
    requires k < |pairs|
    ensures forall p :: InPairs(pairs, k + 1, p) <==> InPairs(pairs, k, p) || p in pairs[k]
  {
    forall p ensures InPairs(pairs, k + 1, p) <==> InPairs(pairs, k, p) || p in pairs[k] {
      if n :| 0 <= n < k && p in pairs[n] {
        assert n < k + 1;
      }
    }
  }

  function PairsOf(ids: seq<Uuid>): seq<seq<Uuid>> {
    if |ids| <= 1 then [ids] else seq(|ids| - 1, k requires 0 <= k < |ids| - 1 => [ids[0], ids[k + 1]])
  }

  // The first person with each of the others: every member stands in some pair, nobody with themselves.
  method PartnerPairs(ids: seq<Uuid>) returns (pairs: seq<seq<Uuid>>)
    requires ids != [] && Distinct(ids)
    ensures |pairs| == if |ids| == 1 then 1 else |ids| - 1
    ensures forall k :: 0 <= k < |pairs| ==> pairs[k] == if |ids| == 1 then [ids[0]] else [ids[0], ids[k + 1]]
    ensures forall k :: 0 <= k < |pairs| ==> 1 <= |pairs[k]| <= 2 && Distinct(pairs[k])
    ensures forall p :: p in ids <==> InPairs(pairs, |pairs|, p)
    ensures pairs == PairsOf(ids)
  {
    if |ids| == 1 {
      pairs := [[ids[0]]];
      assert ids[0] in pairs[0] && ids == [ids[0]];
      return;
    }
    pairs := [];
    for i := 1 to |ids|
      invariant |pairs| == i - 1
      invariant forall k :: 0 <= k < |pairs| ==> pairs[k] == [ids[0], ids[k + 1]]
    {
      pairs := pairs + [[ids[0], ids[i]]];
    }
    forall p ensures p in ids <==> InPairs(pairs, |pairs|, p) {
      if p in ids {
        var i :| 0 <= i < |ids| && ids[i] == p;
        assert p in pairs[if i == 0 then 0 else i - 1];
      }
    }
  }

  function ChunkAt(ids: seq<Uuid>, k: nat): seq<Uuid>
    requires 2 * k < |ids|
  {
    ids[2 * k..if 2 * k + 2 < |ids| then 2 * k + 2 else |ids|]
  }

  method ParentChunks(ids: seq<Uuid>) returns (chunks: seq<seq<Uuid>>)
    ensures |chunks| == (|ids| + 1) / 2
    ensures forall k :: 0 <= k < |chunks| ==> chunks[k] == ChunkAt(ids, k)
  {
    chunks := [];
    var i := 0;
    while i < |ids|
      invariant 0 <= i && i % 2 == 0 && |chunks| == i / 2 && i <= |ids| + 1
      invariant forall k :: 0 <= k < |chunks| ==> 2 * k < |ids| && chunks[k] == ChunkAt(ids, k)
    {
      var end := if i + 2 < |ids| then i + 2 else |ids|;
      chunks := chunks + [ids[i..end]];
      i := i + 2;
    }
  }

  lemma ChunksCover(ids: seq<Uuid>, n: nat, p: Uuid)
    requires 2 * n <= |ids| + 1
    ensures p in ids[..if 2 * n < |ids| then 2 * n else |ids|] <==> exists k :: 0 <= k < n && p in ChunkAt(ids, k)
  {
    var taken := ids[..if 2 * n < |ids| then 2 * n else |ids|];
    if p in taken {
      var i :| 0 <= i < |taken| && taken[i] == p;
      assert ChunkAt(ids, i / 2)[i % 2] == p;
    }
    if exists k :: 0 <= k < n && p in ChunkAt(ids, k) {
      var k :| 0 <= k < n && p in ChunkAt(ids, k);
      var j :| 0 <= j < |ChunkAt(ids, k)| && ChunkAt(ids, k)[j] == p;
      assert taken[2 * k + j] == p;
    }
  }

  // ---- Adding a family ----

  function WithPartners(links: Links, partners: seq<Uuid>, x: XRef): Links {
    map p | p in links :: if p in partners then links[p].(asPartner := links[p].asPartner + {x}) else links[p]
  }

  method LinkPartners(links: Links, partners: seq<Uuid>, x: XRef) returns (linked: Links)
    requires forall p :: p in partners ==> p in links
    ensures linked == WithPartners(links, partners, x)
  {
    linked := links;
    for i := 0 to |partners|
      invariant linked == WithPartners(links, partners[..i], x)
    {
      assert partners[..i + 1] == partners[..i] + [partners[i]];
      linked := linked[partners[i] := linked[partners[i]].(asPartner := linked[partners[i]].asPartner + {x})];
    }
    assert partners[..|partners|] == partners;
  }

  lemma ListsAfterAppend(families: seq<Family>, f: Family)
    ensures forall x, p :: ListsPartner(families + [f], x, p) <==> ListsPartner(families, x, p) || (x == f.xref && p in f.partners)
    ensures f.childLinks == map[] ==>
      forall x, c, t :: ListsChild(families + [f], x, c, t) <==> ListsChild(families, x, c, t)
  {
    var longer := families + [f];
    forall x, p ensures ListsPartner(longer, x, p) <==> ListsPartner(families, x, p) || (x == f.xref && p in f.partners) {
      if ListsPartner(families, x, p) {
        var i :| 0 <= i < |families| && families[i].xref == x && p in families[i].partners;
        assert longer[i] == families[i];
      }
      if x == f.xref && p in f.partners {
        assert longer[|families|] == f;
      }
    }
    if f.childLinks == map[] {
      forall x, c, t ensures ListsChild(longer, x, c, t) <==> ListsChild(families, x, c, t) {
        if ListsChild(families, x, c, t) {
          var i :| 0 <= i < |families| && families[i].xref == x && c in families[i].childLinks && families[i].childLinks[c] == t;
          assert longer[i] == families[i];
        }
      }
    }
  }

  lemma FamilyKeepsInv(persons: Persons, families: seq<Family>, links: Links, f: Family)
    requires Inv(persons, families, links) && WellFormed(persons, f)
    requires f.childLinks == map[] && !Uses(families, f.xref)
    ensures Inv(persons, families + [f], WithPartners(links, f.partners, f.xref))
  {
    ListsAfterAppend(families, f);
    var next := WithPartners(links, f.partners, f.xref);
    forall p, x | p in next ensures x in next[p].asPartner <==> ListsPartner(families + [f], x, p) {
      assert x in links[p].asPartner <==> ListsPartner(families, x, p);
    }
    forall c, x, t | c in next
      ensures x in next[c].asChild && next[c].asChild[x] == t <==> ListsChild(families + [f], x, c, t)
    {
      assert next[c].asChild == links[c].asChild;
    }
  }

  lemma TellsAfterAppend(families: seq<Family>, f: Family)
    requires f.childLinks == map[]
    ensures forall p: Uuid, c: Uuid, t: string :: Tells(families + [f], p, c, t) <==> Tells(families, p, c, t)
  {
    var longer := families + [f];
    forall p, c, t ensures Tells(longer, p, c, t) <==> Tells(families, p, c, t) {
      if Tells(families, p, c, t) {
        var i :| 0 <= i < |families| && p in families[i].partners &&
          c in families[i].childLinks && families[i].childLinks[c] == t;
        assert longer[i] == families[i];
      }
    }
  }

  // ---- Adding a child ----

  function WithChild(f: Family, c: Uuid, t: string): Family {
    f.(children := f.children + [c], childLinks := f.childLinks[c := t])
  }

  function WithChildLink(links: Links, c: Uuid, x: XRef, t: string): Links
    requires c in links
  {
    links[c := links[c].(asChild := links[c].asChild[x := t])]
  }

  lemma ListsAfterChild(families: seq<Family>, k: nat, c: Uuid, t: string)
    requires k < |families| && c !in families[k].childLinks && XRefsDistinct(families)
    ensures var next := families[k := WithChild(families[k], c, t)];
      && (forall x, p :: ListsPartner(next, x, p) <==> ListsPartner(families, x, p))
      && (forall x, d, u :: ListsChild(next, x, d, u) <==>
            ListsChild(families, x, d, u) || (x == families[k].xref && d == c && u == t))
  {
    var next := families[k := WithChild(families[k], c, t)];
    forall x, p ensures ListsPartner(next, x, p) <==> ListsPartner(families, x, p) {
      assert forall i :: 0 <= i < |families| ==> next[i].xref == families[i].xref && next[i].partners == families[i].partners;
    }
    forall x, d, u ensures ListsChild(next, x, d, u) <==>
      ListsChild(families, x, d, u) || (x == families[k].xref && d == c && u == t)
    {
      if ListsChild(families, x, d, u) {
        var i :| 0 <= i < |families| && families[i].xref == x && d in families[i].childLinks && families[i].childLinks[d] == u;
        assert d in next[i].childLinks && next[i].childLinks[d] == u;
      }
      if x == families[k].xref && d == c && u == t {
        assert next[k].xref == x;
      }
    }
  }

  lemma TellsAfterChild(families: seq<Family>, k: nat, c: Uuid, t: string)
    requires k < |families| && c !in families[k].childLinks
    ensures var next := families[k := WithChild(families[k], c, t)];
      forall p, d, u :: Tells(next, p, d, u) <==> Tells(families, p, d, u) || (p in families[k].partners && d == c && u == t)
  {
    var next := families[k := WithChild(families[k], c, t)];
    forall p, d, u
      ensures Tells(next, p, d, u) <==> Tells(families, p, d, u) || (p in families[k].partners && d == c && u == t)
    {
      if Tells(families, p, d, u) {
        var i :| 0 <= i < |families| && p in families[i].partners && d in families[i].childLinks && families[i].childLinks[d] == u;
        assert p in next[i].partners && d in next[i].childLinks && next[i].childLinks[d] == u;
      }
      if p in families[k].partners && d == c && u == t {
        assert p in next[k].partners;
      }
    }
  }

  lemma ChildStaysWellFormed(persons: Persons, f: Family, c: Uuid, t: string)
    requires WellFormed(persons, f) && c in persons && c !in f.childLinks && c !in f.partners
    ensures WellFormed(persons, WithChild(f, c, t))
  {
  }

  lemma NoChildYet(families: seq<Family>, k: nat, c: Uuid, t: string)
    requires k < |families| && XRefsDistinct(families) && c !in families[k].childLinks
    ensures !ListsChild(families, families[k].xref, c, t)
  {
  }

  lemma ChildKeepsInv(persons: Persons, families: seq<Family>, links: Links, k: nat, c: Uuid, t: string)
    requires Inv(persons, families, links) && k < |families| && c in persons
    requires c !in families[k].childLinks && c !in families[k].partners
    ensures Inv(persons, families[k := WithChild(families[k], c, t)], WithChildLink(links, c, families[k].xref, t))
  {
    var next := families[k := WithChild(families[k], c, t)];
    var linked := WithChildLink(links, c, families[k].xref, t);
    ListsAfterChild(families, k, c, t);
    assert families[k] in families;
    ChildStaysWellFormed(persons, families[k], c, t);
    forall p, x | p in linked ensures x in linked[p].asPartner <==> ListsPartner(next, x, p) {
      assert linked[p].asPartner == links[p].asPartner;
    }
    forall d, x, u | d in linked
      ensures x in linked[d].asChild && linked[d].asChild[x] == u <==> ListsChild(next, x, d, u)
    {
      assert x in links[d].asChild && links[d].asChild[x] == u <==> ListsChild(families, x, d, u);
      if d == c && x == families[k].xref {
        NoChildYet(families, k, c, u);
      }
    }
  }
}
