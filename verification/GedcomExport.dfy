/** The GEDCOM export as a whole: the written text states exactly the active relations of the snapshot. */
module GedcomExport {
  import opened Graphs
  import opened Manifest
  import opened Ordering
  import opened GedcomFamilies
  import opened GedcomRelations
  import opened GedcomUnions
  import opened GedcomLines
  import opened Texts
  import opened GedcomRecords
  import opened GedcomMeaning
  import opened GedcomWriting

  const BYTE_ORDER_MARK := "\U{FEFF}"

  // ---- What the text says ----

  // The records of a file without its byte order mark.
  function ReadFile(text: string): Option<seq<Line>> {
    if text == "" || [text[0]] != BYTE_ORDER_MARK then None else Read(text[1..])
  }

  ghost predicate RelatedAs(n: Naming, relations: seq<Relation>, persons: Persons, a: string, b: string, t: string) {
    exists p, c, u :: Related(relations, persons, p, c, u) && a == PersonName(n, p) && b == PersonName(n, c) && Canonical(u) == t
  }

  // The text is a readable file from which exactly the active relations of the snapshot can be concluded.
  ghost predicate StatesRelations(text: string, n: Naming, relations: seq<Relation>, persons: Persons) {
    && ReadFile(text).Some?
    && forall a, b, t :: Concludes(FactsOf(ReadFile(text).value), a, b, t) <==> RelatedAs(n, relations, persons, a, b, t)
  }

  // Pointers from families to persons and back agree.
  ghost predicate StatesMirrored(text: string) {
    && ReadFile(text).Some?
    && var facts := FactsOf(ReadFile(text).value);
       forall f, a ::
         && ((f, a) in facts.partners <==> (a, f) in facts.spouses)
         && ((f, a) in facts.children <==> (a, f) in facts.childIn)
  }

  // The partners in the records of a union are its active members.
  ghost predicate StatesUnions(text: string, n: Naming, unions: seq<Union>, members: seq<UnionMember>, persons: Persons) {
    && ReadFile(text).Some?
    && forall u, p ::
         (exists k: nat :: (FamilyName(n, UnionXRef(u, k)), PersonName(n, p)) in FactsOf(ReadFile(text).value).partners) <==>
         ActiveMember(unions, members, persons, u, p)
  }

  lemma CleaningKeepsStep(s: Reading, line: Line)
    requires Printable(line)
    ensures Step(s, Cleaned(line)) == Step(s, line)
  {
    if line.payload.Text? && Clean(line.payload.text) {
      CleanTextFixes(line.payload.text);
    }
  }

  lemma {:induction false} CleaningKeepsReading(lines: seq<Line>)
    requires forall l :: l in lines ==> Printable(l)
    ensures ReadFrom(START, CleanedAll(lines)) == ReadFrom(START, lines)
  {
    if lines != [] {
      var before, last := lines[..|lines| - 1], lines[|lines| - 1];
      assert last in lines;
      CleaningKeepsReading(before);
      assert CleanedAll(lines)[..|lines| - 1] == CleanedAll(before);
      CleaningKeepsStep(ReadFrom(START, before), last);
    }
  }

  lemma FileReadsBack(lines: seq<Line>)
    requires forall l :: l in lines ==> Printable(l)
    ensures ReadFile(BYTE_ORDER_MARK + PrintAll(lines)) == Some(CleanedAll(lines))
    ensures FactsOf(CleanedAll(lines)) == FactsOf(lines)
  {
    DocumentReadsBack(lines);
    CleaningKeepsReading(lines);
    assert (BYTE_ORDER_MARK + PrintAll(lines))[1..] == PrintAll(lines);
  }

  lemma RelationsStated(text: string, n: Naming, relations: seq<Relation>, persons: Persons, families: seq<Family>, links: Links)
    requires GoodNaming(n) && Inv(persons, families, links) && ReadFile(text).Some?
    requires AllRead(n, families, links, FactsOf(ReadFile(text).value))
    requires forall p: Uuid, c: Uuid, t: string :: Tells(families, p, c, t) <==> Related(relations, persons, p, c, t)
    ensures StatesRelations(text, n, relations, persons) && StatesMirrored(text)
  {
    var facts := FactsOf(ReadFile(text).value);
    forall a, b, t ensures Concludes(facts, a, b, t) <==> RelatedAs(n, relations, persons, a, b, t) {
      if Concludes(facts, a, b, t) {
        ConcludedIsTold(n, persons, families, links, facts, a, b, t);
      }
      if RelatedAs(n, relations, persons, a, b, t) {
        var p, c, u :| Related(relations, persons, p, c, u) && a == PersonName(n, p) && b == PersonName(n, c) && Canonical(u) == t;
        TellsIsConcluded(n, persons, families, links, facts, p, c, u);
      }
    }
    forall f, a
      ensures (f, a) in facts.partners <==> (a, f) in facts.spouses
      ensures (f, a) in facts.children <==> (a, f) in facts.childIn
    {
      PointersMirror(n, persons, families, links, facts, f, a);
    }
  }

  lemma StatedMemberIsListed(n: Naming, families: seq<Family>, u: Uuid, k: nat, p: Uuid)
    requires GoodNaming(n)
    requires PartnerStated(n, families, Indices(families), FamilyName(n, UnionXRef(u, k)), PersonName(n, p))
    ensures UnionLists(families, u, p)
  {
    var i, q :| i in Indices(families) && 0 <= i < |families| && q in families[i].partners &&
      FamilyName(n, UnionXRef(u, k)) == FamilyName(n, families[i].xref) && PersonName(n, p) == PersonName(n, q);
    FamilyNamesDiffer(n, UnionXRef(u, k), families[i].xref);
    PersonNamesDiffer(n, p, q);
  }

  lemma ListedMemberIsStated(n: Naming, families: seq<Family>, u: Uuid, p: Uuid) returns (k: nat)
    requires UnionLists(families, u, p)
    ensures PartnerStated(n, families, Indices(families), FamilyName(n, UnionXRef(u, k)), PersonName(n, p))
  {
    var i :| 0 <= i < |families| && families[i].xref.UnionXRef? && families[i].xref.unionId == u && p in families[i].partners;
    k := families[i].xref.index;
    assert i in Indices(families) && families[i].xref == UnionXRef(u, k);
  }

  lemma UnionsStated(text: string, n: Naming, unions: seq<Union>, members: seq<UnionMember>, persons: Persons,
                     families: seq<Family>, links: Links)
    requires GoodNaming(n) && ReadFile(text).Some? && AllRead(n, families, links, FactsOf(ReadFile(text).value))
    requires forall u, p :: UnionLists(families, u, p) <==> ActiveMember(unions, members, persons, u, p)
    ensures StatesUnions(text, n, unions, members, persons)
  {
    var facts := FactsOf(ReadFile(text).value);
    forall u, p
      ensures (exists k: nat :: (FamilyName(n, UnionXRef(u, k)), PersonName(n, p)) in facts.partners) <==> UnionLists(families, u, p)
    {
      if k: nat :| (FamilyName(n, UnionXRef(u, k)), PersonName(n, p)) in facts.partners {
        StatedMemberIsListed(n, families, u, k, p);
      }
      if UnionLists(families, u, p) {
        var k := ListedMemberIsStated(n, families, u, p);
        assert (FamilyName(n, UnionXRef(u, k)), PersonName(n, p)) in facts.partners;
      }
    }
  }

  ghost function RecordsOf(persons: Persons, families: seq<Family>, links: Links, n: Naming, e: Extras): seq<Line>
    requires GoodNaming(n)
  {
    e.header + PersonRecords(n, SortedOf(persons.Keys), links, e.persons) + FamilyRecords(n, persons, families, e.families) + e.trailer
  }

  // The text of a snapshot: nothing but the snapshot takes part in it.
  ghost function TextOf(rows: seq<Person>, unions: seq<Union>, members: seq<UnionMember>, relations: seq<Relation>, n: Naming,
                        e: Extras): string
    requires GoodNaming(n)
  {
    var persons := PersonsOf(rows);
    var families := FamiliesInOrder(n, FamiliesOf(persons, unions, members, ParentSetsOf(relations, persons)));
    BYTE_ORDER_MARK + PrintAll(RecordsOf(persons, families, LinksOf(persons, families), n, e))
  }

  lemma BothRead(n: Naming, families: seq<Family>, links: Links, middle: Facts, facts: Facts)
    requires PersonsRead(n, links, links.Keys, middle) && FamiliesRead(n, families, Indices(families), middle, facts)
    ensures AllRead(n, families, links, facts)
  {
  }

  lemma OthersRead(lines: seq<Line>, others: seq<Line>)
    requires OtherRecords(others)
    ensures FactsOf(lines + others) == FactsOf(lines)
  {
    ReadAppend(START, lines, others);
    OtherRecordsRead(ReadFrom(START, lines), others);
  }

  // The facts of the whole file.
  lemma RecordsRead(persons: Persons, families: seq<Family>, links: Links, n: Naming, e: Extras)
    requires GoodNaming(n) && GoodExtras(e) && links.Keys == persons.Keys
    ensures AllRead(n, families, links, FactsOf(RecordsOf(persons, families, links, n, e)))
  {
    var ids := SortedOf(persons.Keys);
    SortedIsWhole(persons.Keys);
    OthersRead([], e.header);
    assert [] + e.header == e.header;
    PersonRecordsRead(e.header, n, ids, links, e.persons);
    assert IdSet(ids) == links.Keys;
    var middle := e.header + PersonRecords(n, ids, links, e.persons);
    FamilyRecordsRead(middle, n, persons, families, |families|, e.families);
    assert families[..|families|] == families;
    var written := middle + FamilyRecords(n, persons, families, e.families);
    BothRead(n, families, links, FactsOf(middle), FactsOf(written));
    OthersRead(written, e.trailer);
  }

  // The export. Its text is that of the snapshot, whatever order the maps were walked in, and from it alone a reader
  // recovers the parent-child relations among active persons with their types, the members of the active unions, and
  // every pointer from both of its ends.
  method Render(rows: seq<Person>, unions: seq<Union>, members: seq<UnionMember>, relations: seq<Relation>, n: Naming, e: Extras)
      returns (text: string, persons: Persons)
    requires GoodNaming(n) && GoodExtras(e)
    ensures forall p :: p in persons <==> ActivePerson(rows, p)
    ensures text == TextOf(rows, unions, members, relations, n, e)
    ensures StatesRelations(text, n, relations, persons)
    ensures StatesMirrored(text)
    ensures StatesUnions(text, n, unions, members, persons)
  {
    persons := ActivePersons(rows);
    var families, links := BuildFamilies(persons, unions, members, relations);
    families := SortFamilies(n, persons, families, links);
    LinksAre(persons, families, links);
    var w := new Writer();
    EmitAll(w, e.header);
    assert w.lines == e.header;
    WritePersons(w, n, persons, links, e.persons);
    WriteFamilies(w, n, persons, families, e.families);
    EmitAll(w, e.trailer);
    text := BYTE_ORDER_MARK + w.buffer;
    RecordsRead(persons, families, links, n, e);
    FileReadsBack(w.lines);
    RelationsStated(text, n, relations, persons, families, links);
    UnionsStated(text, n, unions, members, persons, families, links);
  }

  // The order in which the relations come does not matter, nor how often one is stated: the same relations make the
  // same text.
  lemma RelationsDetermineText(rows: seq<Person>, unions: seq<Union>, members: seq<UnionMember>, relations: seq<Relation>,
                               others: seq<Relation>, n: Naming, e: Extras)
    requires GoodNaming(n)
    requires forall p: Uuid, c: Uuid, t: string ::
      Related(relations, PersonsOf(rows), p, c, t) <==> Related(others, PersonsOf(rows), p, c, t)
    ensures TextOf(rows, unions, members, relations, n, e) == TextOf(rows, unions, members, others, n, e)
  {
    var persons := PersonsOf(rows);
    ParentSetsGroup(others, persons);
    assert Groups(relations, persons, ParentSetsOf(others, persons));
    ParentSetsAre(relations, persons, ParentSetsOf(others, persons));
  }

  // A relation whose type is written as t: an unknown type is written like "unknown".
  ghost predicate RelatedUpTo(relations: seq<Relation>, persons: Persons, p: Uuid, c: Uuid, t: string) {
    exists u :: Related(relations, persons, p, c, u) && Canonical(u) == t
  }

  lemma OtherTextRelated(text: string, n: Naming, relations: seq<Relation>, persons: Persons,
                         others: seq<Relation>, otherPersons: Persons, p: Uuid, c: Uuid, t: string)
    requires GoodNaming(n)
    requires StatesRelations(text, n, relations, persons) && StatesRelations(text, n, others, otherPersons)
    requires RelatedUpTo(relations, persons, p, c, t)
    ensures RelatedUpTo(others, otherPersons, p, c, t)
  {
    var a, b := PersonName(n, p), PersonName(n, c);
    assert RelatedAs(n, relations, persons, a, b, t);
    assert RelatedAs(n, others, otherPersons, a, b, t);
    var q, d, u :| Related(others, otherPersons, q, d, u) && a == PersonName(n, q) && b == PersonName(n, d) && Canonical(u) == t;
    PersonNamesDiffer(n, p, q);
    PersonNamesDiffer(n, c, d);
  }

  // Two snapshots exported to the same text have the same relations, up to types outside the known six: none is lost,
  // merged or invented on the way.
  lemma TextDeterminesRelations(text: string, n: Naming, relations: seq<Relation>, persons: Persons,
                                others: seq<Relation>, otherPersons: Persons, p: Uuid, c: Uuid, t: string)
    requires GoodNaming(n)
    requires StatesRelations(text, n, relations, persons) && StatesRelations(text, n, others, otherPersons)
    ensures RelatedUpTo(relations, persons, p, c, t) <==> RelatedUpTo(others, otherPersons, p, c, t)
  {
    if RelatedUpTo(relations, persons, p, c, t) {
      OtherTextRelated(text, n, relations, persons, others, otherPersons, p, c, t);
    }
    if RelatedUpTo(others, otherPersons, p, c, t) {
      OtherTextRelated(text, n, others, otherPersons, relations, persons, p, c, t);
    }
  }

  ghost predicate TypesKnown(relations: seq<Relation>) {
    forall r :: r in relations ==> r.relationType in KNOWN_TYPES
  }

  lemma KnownUpToIsExact(relations: seq<Relation>, persons: Persons, p: Uuid, c: Uuid, t: string)
    requires TypesKnown(relations)
    ensures RelatedUpTo(relations, persons, p, c, t) <==> Related(relations, persons, p, c, t)
  {
    if Related(relations, persons, p, c, t) {
      assert Canonical(t) == t;
    }
    if u :| Related(relations, persons, p, c, u) && Canonical(u) == t {
      assert Canonical(u) == u;
    }
  }

  // With known types only, as the database demands, the text determines every relation and its type.
  lemma TextDeterminesKnownRelations(text: string, n: Naming, relations: seq<Relation>, persons: Persons,
                                     others: seq<Relation>, otherPersons: Persons, p: Uuid, c: Uuid, t: string)
    requires GoodNaming(n) && TypesKnown(relations) && TypesKnown(others)
    requires StatesRelations(text, n, relations, persons) && StatesRelations(text, n, others, otherPersons)
    ensures Related(relations, persons, p, c, t) <==> Related(others, otherPersons, p, c, t)
  {
    TextDeterminesRelations(text, n, relations, persons, others, otherPersons, p, c, t);
    KnownUpToIsExact(relations, persons, p, c, t);
    KnownUpToIsExact(others, otherPersons, p, c, t);
  }
}
