/** What a reader of all records concludes, compared with the families and links they were written from. */
module GedcomMeaning {
  import opened Graphs
  import opened Ordering
  import opened GedcomFamilies
  import opened GedcomRecords

  // ---- Individuals ----

  ghost predicate SpouseStated(n: Naming, links: Links, done: set<Uuid>, a: string, b: string) {
    exists p, x :: p in done && p in links && x in links[p].asPartner && a == PersonName(n, p) && b == FamilyName(n, x)
  }

  ghost predicate ChildStated(n: Naming, links: Links, done: set<Uuid>, a: string, b: string) {
    exists p, x :: p in done && p in links && x in links[p].asChild && a == PersonName(n, p) && b == FamilyName(n, x)
  }

  // The records of `done` have been read, and no family yet.
  ghost predicate PersonsRead(n: Naming, links: Links, done: set<Uuid>, facts: Facts) {
    && facts.partners == {} && facts.children == {}
    && (forall a, b :: (a, b) in facts.spouses <==> SpouseStated(n, links, done, a, b))
    && (forall a, b :: (a, b) in facts.childIn <==> ChildStated(n, links, done, a, b))
    && (forall p, x :: p in done && p in links && x in links[p].asChild ==>
          facts.childIn[(PersonName(n, p), FamilyName(n, x))] == GedcomPedigree(links[p].asChild[x]))
  }

  lemma SpousesAfter(n: Naming, links: Links, done: set<Uuid>, p: Uuid, before: Facts, after: Facts)
    requires PersonsRead(n, links, done, before) && p in links
    requires IndividualAdded(n, p, links[p], before, after)
    ensures forall a, b :: (a, b) in after.spouses <==> SpouseStated(n, links, done + {p}, a, b)
  {
    forall a, b ensures (a, b) in after.spouses <==> SpouseStated(n, links, done + {p}, a, b) {
      if SpouseStated(n, links, done, a, b) {
        var q, x :| q in done && q in links && x in links[q].asPartner && a == PersonName(n, q) && b == FamilyName(n, x);
        assert q in done + {p};
      }
      if (a, b) in Pairs(n, PersonName(n, p), links[p].asPartner) {
        var x :| x in links[p].asPartner && (a, b) == (PersonName(n, p), FamilyName(n, x));
        assert p in done + {p};
      }
      if SpouseStated(n, links, done + {p}, a, b) {
        var q, x :| q in done + {p} && q in links && x in links[q].asPartner && a == PersonName(n, q) && b == FamilyName(n, x);
        if q in done {
          assert SpouseStated(n, links, done, a, b);
        } else {
          assert (a, b) in Pairs(n, PersonName(n, p), links[p].asPartner);
        }
      }
    }
  }

  lemma ChildrenAfter(n: Naming, links: Links, done: set<Uuid>, p: Uuid, before: Facts, after: Facts)
    requires PersonsRead(n, links, done, before) && p in links
    requires IndividualAdded(n, p, links[p], before, after)
    ensures forall a, b :: (a, b) in after.childIn <==> ChildStated(n, links, done + {p}, a, b)
  {
    forall a, b ensures (a, b) in after.childIn <==> ChildStated(n, links, done + {p}, a, b) {
      if ChildStated(n, links, done, a, b) {
        var q, x :| q in done && q in links && x in links[q].asChild && a == PersonName(n, q) && b == FamilyName(n, x);
        assert q in done + {p};
      }
      if (a, b) in Pairs(n, PersonName(n, p), links[p].asChild.Keys) {
        var x :| x in links[p].asChild.Keys && (a, b) == (PersonName(n, p), FamilyName(n, x));
        assert p in done + {p};
      }
      if ChildStated(n, links, done + {p}, a, b) {
        var q, x :| q in done + {p} && q in links && x in links[q].asChild && a == PersonName(n, q) && b == FamilyName(n, x);
        if q in done {
          assert ChildStated(n, links, done, a, b);
        } else {
          assert (a, b) in Pairs(n, PersonName(n, p), links[p].asChild.Keys);
        }
      }
    }
  }

  lemma PersonRead(n: Naming, links: Links, done: set<Uuid>, p: Uuid, before: Facts, after: Facts)
    requires GoodNaming(n) && PersonsRead(n, links, done, before) && p in links && p !in done
    requires IndividualAdded(n, p, links[p], before, after)
    ensures PersonsRead(n, links, done + {p}, after)
  {
    SpousesAfter(n, links, done, p, before, after);
    ChildrenAfter(n, links, done, p, before, after);
    forall q, x | q in done + {p} && q in links && x in links[q].asChild
      ensures (PersonName(n, q), FamilyName(n, x)) in after.childIn
      ensures after.childIn[(PersonName(n, q), FamilyName(n, x))] == GedcomPedigree(links[q].asChild[x])
    {
      var key := (PersonName(n, q), FamilyName(n, x));
      assert ChildStated(n, links, done + {p}, key.0, key.1);
      if q != p {
        PersonNamesDiffer(n, p, q);
        assert ChildStated(n, links, done, key.0, key.1);
        assert key !in Pairs(n, PersonName(n, p), links[p].asChild.Keys);
      }
    }
  }

  // ---- Families ----

  ghost predicate PartnerStated(n: Naming, families: seq<Family>, done: set<int>, a: string, b: string) {
    exists i, p :: i in done && 0 <= i < |families| && p in families[i].partners &&
      a == FamilyName(n, families[i].xref) && b == PersonName(n, p)
  }

  ghost predicate ChildListed(n: Naming, families: seq<Family>, done: set<int>, a: string, b: string) {
    exists i, c :: i in done && 0 <= i < |families| && c in families[i].children &&
      a == FamilyName(n, families[i].xref) && b == PersonName(n, c)
  }

  ghost predicate FamiliesRead(n: Naming, families: seq<Family>, done: set<int>, start: Facts, facts: Facts) {
    && facts.spouses == start.spouses && facts.childIn == start.childIn
    && (forall a, b :: (a, b) in facts.partners <==> PartnerStated(n, families, done, a, b))
    && (forall a, b :: (a, b) in facts.children <==> ChildListed(n, families, done, a, b))
  }

  lemma FamilyRead(n: Naming, families: seq<Family>, done: set<int>, i: int, start: Facts, before: Facts, after: Facts,
                   children: seq<Uuid>)
    requires FamiliesRead(n, families, done, start, before) && 0 <= i < |families|
    requires SameMembers(children, families[i].children)
    requires var x := FamilyName(n, families[i].xref);
      after == before.(partners := before.partners + Names(n, x, families[i].partners),
                       children := before.children + Names(n, x, children))
    ensures FamiliesRead(n, families, done + {i}, start, after)
  {
    var x := FamilyName(n, families[i].xref);
    forall a, b ensures (a, b) in after.partners <==> PartnerStated(n, families, done + {i}, a, b) {
      assert (a, b) in Names(n, x, families[i].partners) <==>
        exists p :: p in families[i].partners && (a, b) == (x, PersonName(n, p));
    }
    forall a, b ensures (a, b) in after.children <==> ChildListed(n, families, done + {i}, a, b) {
      assert (a, b) in Names(n, x, children) <==> exists c :: c in children && (a, b) == (x, PersonName(n, c));
    }
  }

  // ---- Conclusions ----

  function IndicesBelow(k: nat): (indices: set<int>)
    ensures forall i :: i in indices <==> 0 <= i < k
  {
    if k == 0 then {} else IndicesBelow(k - 1) + {k - 1}
  }

  function Indices(families: seq<Family>): set<int> {
    IndicesBelow(|families|)
  }

  // All records have been read.
  ghost predicate AllRead(n: Naming, families: seq<Family>, links: Links, facts: Facts) {
    && (forall a, b :: (a, b) in facts.spouses <==> SpouseStated(n, links, links.Keys, a, b))
    && (forall a, b :: (a, b) in facts.childIn <==> ChildStated(n, links, links.Keys, a, b))
    && (forall p, x :: p in links && x in links[p].asChild ==>
          facts.childIn[(PersonName(n, p), FamilyName(n, x))] == GedcomPedigree(links[p].asChild[x]))
    && (forall a, b :: (a, b) in facts.partners <==> PartnerStated(n, families, Indices(families), a, b))
    && (forall a, b :: (a, b) in facts.children <==> ChildListed(n, families, Indices(families), a, b))
  }

  ghost predicate Stated(n: Naming, families: seq<Family>, a: string, b: string, t: string) {
    exists p, c, u :: Tells(families, p, c, u) && a == PersonName(n, p) && b == PersonName(n, c) && Canonical(u) == t
  }

  // Every relation a family tells is concluded.
  lemma TellsIsConcluded(n: Naming, persons: Persons, families: seq<Family>, links: Links, facts: Facts, p: Uuid, c: Uuid, u: string)
    requires GoodNaming(n) && Inv(persons, families, links) && AllRead(n, families, links, facts)
    requires Tells(families, p, c, u)
    ensures Concludes(facts, PersonName(n, p), PersonName(n, c), Canonical(u))
  {
    var i :| 0 <= i < |families| && p in families[i].partners && c in families[i].childLinks && families[i].childLinks[c] == u;
    var x := families[i].xref;
    var f, a, b := FamilyName(n, x), PersonName(n, p), PersonName(n, c);
    assert WellFormed(persons, families[i]);
    assert i in Indices(families) && c in families[i].children;
    assert PartnerStated(n, families, Indices(families), f, a);
    assert ChildListed(n, families, Indices(families), f, b);
    assert ListsChild(families, x, c, u);
    assert x in links[c].asChild && links[c].asChild[x] == u;
    assert ChildStated(n, links, links.Keys, b, f);
    PedigreeReadsBack(u);
  }

  // Nothing else is concluded.
  lemma ConcludedIsTold(n: Naming, persons: Persons, families: seq<Family>, links: Links, facts: Facts, a: string, b: string, t: string)
    requires GoodNaming(n) && Inv(persons, families, links) && AllRead(n, families, links, facts)
    requires Concludes(facts, a, b, t)
    ensures Stated(n, families, a, b, t)
  {
    var f :| (f, a) in facts.partners && (f, b) in facts.children && (b, f) in facts.childIn &&
      TypeOfPedigree(facts.childIn[(b, f)]) == t;
    assert PartnerStated(n, families, Indices(families), f, a);
    assert ChildListed(n, families, Indices(families), f, b);
    var i, p :| i in Indices(families) && 0 <= i < |families| && p in families[i].partners &&
      f == FamilyName(n, families[i].xref) && a == PersonName(n, p);
    var j, c :| j in Indices(families) && 0 <= j < |families| && c in families[j].children &&
      f == FamilyName(n, families[j].xref) && b == PersonName(n, c);
    FamilyNamesDiffer(n, families[i].xref, families[j].xref);
    assert i == j;
    assert WellFormed(persons, families[i]);
    var x, u := families[i].xref, families[i].childLinks[c];
    assert ListsChild(families, x, c, u);
    assert x in links[c].asChild && links[c].asChild[x] == u;
    PedigreeReadsBack(u);
    assert Tells(families, p, c, u);
  }

  lemma ChildPointersMirror(n: Naming, persons: Persons, families: seq<Family>, links: Links, facts: Facts, f: string, a: string)
    requires GoodNaming(n) && Inv(persons, families, links) && AllRead(n, families, links, facts)
    ensures (f, a) in facts.children <==> (a, f) in facts.childIn
  {
    if (f, a) in facts.children {
      var i, c :| i in Indices(families) && 0 <= i < |families| && c in families[i].children &&
        f == FamilyName(n, families[i].xref) && a == PersonName(n, c);
      assert WellFormed(persons, families[i]);
      assert ListsChild(families, families[i].xref, c, families[i].childLinks[c]);
      assert families[i].xref in links[c].asChild;
    }
    if (a, f) in facts.childIn {
      var p, x :| p in links.Keys && p in links && x in links[p].asChild && a == PersonName(n, p) && f == FamilyName(n, x);
      assert ListsChild(families, x, p, links[p].asChild[x]);
      var i :| 0 <= i < |families| && families[i].xref == x && p in families[i].childLinks && families[i].childLinks[p] == links[p].asChild[x];
      assert i in Indices(families) && WellFormed(persons, families[i]);
    }
  }

  // The pointers of families and persons mirror each other in the written records.
  lemma PointersMirror(n: Naming, persons: Persons, families: seq<Family>, links: Links, facts: Facts, f: string, a: string)
    requires GoodNaming(n) && Inv(persons, families, links) && AllRead(n, families, links, facts)
    ensures (f, a) in facts.partners <==> (a, f) in facts.spouses
    ensures (f, a) in facts.children <==> (a, f) in facts.childIn
  {
    if (f, a) in facts.partners {
      var i, p :| i in Indices(families) && 0 <= i < |families| && p in families[i].partners &&
        f == FamilyName(n, families[i].xref) && a == PersonName(n, p);
      assert WellFormed(persons, families[i]) && ListsPartner(families, families[i].xref, p);
    }
    if (a, f) in facts.spouses {
      var p, x :| p in links.Keys && p in links && x in links[p].asPartner && a == PersonName(n, p) && f == FamilyName(n, x);
      var i :| 0 <= i < |families| && families[i].xref == x && p in families[i].partners;
      assert i in Indices(families);
    }
    ChildPointersMirror(n, persons, families, links, facts, f, a);
  }
}
