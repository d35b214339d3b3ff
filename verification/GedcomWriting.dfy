/** Writing the records in the order of their names: exactly the lines that the families and their links determine. */
module GedcomWriting {
  import opened Graphs
  import opened Manifest
  import opened Ordering
  import opened Arrangements
  import opened GedcomFamilies
  import opened GedcomLines
  import opened Texts
  import opened GedcomRecords
  import opened GedcomMeaning

  // ---- Writing lines ----

  ghost predicate Ready(w: Writer)
    reads w
  {
    w.Valid() && forall l :: l in w.lines ==> Printable(l)
  }

  lemma Regroup(start: seq<Line>, said: seq<Line>, more: seq<Line>)
    ensures start + said + more == start + (said + more)
  {
  }

  method Emit(w: Writer, line: Line)
    requires Ready(w) && Printable(line)
    modifies w
    ensures Ready(w) && w.lines == old(w.lines) + [line]
  {
    match line.payload {
      case Text(text) => w.WriteLine(line.level, line.xref, line.tag, text);
      case Pointer(target) => w.WritePointer(line.level, line.tag, target);
    }
  }

  method EmitAll(w: Writer, lines: seq<Line>)
    requires Ready(w) && forall l :: l in lines ==> Printable(l)
    modifies w
    ensures Ready(w) && w.lines == old(w.lines) + lines
    decreases |lines|
  {
    if lines != [] {
      assert lines[0] in lines && lines == [lines[0]] + lines[1..];
      Emit(w, lines[0]);
      Regroup(old(w.lines), [lines[0]], lines[1..]);
      EmitAll(w, lines[1..]);
    }
  }

  lemma PointerPrintable(tag: string, name: string)
    requires tag in {"FAMS", "FAMC", "HUSB", "WIFE", "CHIL"} && name != "" && GoodXRef(name)
    ensures Printable(Line(1, "", tag, Pointer(name)))
  {
  }

  lemma RecordPrintable(name: string, kind: string)
    requires kind in {"INDI", "FAM", "HEAD", "TRLR"} && GoodXRef(name)
    ensures Printable(Line(0, name, kind, Text("")))
  {
  }

  lemma PedigreeClean(t: string)
    ensures Clean(GedcomPedigree(t).0) && Clean(GedcomPedigree(t).1)
  {
  }

  lemma PediPrintable(text: string)
    requires Clean(text)
    ensures Printable(Line(2, "", "PEDI", Text(text)))
  {
  }

  lemma PhrasePrintable(level: nat, text: string)
    requires Clean(text)
    ensures Printable(Line(level, "", "PHRASE", Text(text)))
  {
  }

  // The child link lines of one family.
  method WriteChildLink(w: Writer, n: Naming, x: XRef, t: string, notes: seq<Line>)
    requires Ready(w) && GoodNaming(n) && LinkDetails(notes)
    modifies w
    ensures Ready(w) && w.lines == old(w.lines) + ChildLinkLines(FamilyName(n, x), t, notes)
  {
    NamesAreGood(n, 0, x);
    PointerPrintable("FAMC", FamilyName(n, x));
    PedigreeClean(t);
    PediPrintable(GedcomPedigree(t).0);
    PhrasePrintable(3, GedcomPedigree(t).1);
    ghost var start := w.lines;
    ghost var famc, pedi := Line(1, "", "FAMC", Pointer(FamilyName(n, x))), Line(2, "", "PEDI", Text(GedcomPedigree(t).0));
    ghost var phrase := PhraseLines(GedcomPedigree(t).1);
    Emit(w, Line(1, "", "FAMC", Pointer(FamilyName(n, x))));
    Emit(w, Line(2, "", "PEDI", Text(GedcomPedigree(t).0)));
    Regroup(start, [famc], [pedi]);
    EmitAll(w, PhraseLines(GedcomPedigree(t).1));
    Regroup(start, [famc] + [pedi], phrase);
    EmitAll(w, notes);
    Regroup(start, [famc] + [pedi] + phrase, notes);
  }

  // Families come in the order of their names.
  function NameOrder(n: Naming): (XRef, XRef) -> bool {
    (x: XRef, y: XRef) => Less(FamilyName(n, x), FamilyName(n, y))
  }

  lemma NamesAreOrdered(n: Naming)
    requires GoodNaming(n)
    ensures TotalOrder(NameOrder(n))
  {
    StringsAreOrdered();
    forall x: XRef, y: XRef ensures x == y || Less(FamilyName(n, x), FamilyName(n, y)) || Less(FamilyName(n, y), FamilyName(n, x)) {
      FamilyNamesDiffer(n, x, y);
    }
  }

  ghost function InNameOrder(n: Naming, xs: set<XRef>): seq<XRef>
    requires GoodNaming(n)
  {
    NamesAreOrdered(n);
    Arranged(NameOrder(n), xs)
  }

  lemma OrderIsWhole(n: Naming, xs: set<XRef>)
    requires GoodNaming(n)
    ensures Members(InNameOrder(n, xs)) == xs && NoRepeats(InNameOrder(n, xs))
    ensures forall x :: x in InNameOrder(n, xs) ==> x in xs
  {
    NamesAreOrdered(n);
    ArrangedAscends(NameOrder(n), xs);
    var ys := InNameOrder(n, xs);
    forall i, j | 0 <= i < j < |ys| ensures ys[i] != ys[j] {
      assert NameOrder(n)(ys[i], ys[j]);
    }
  }

  lemma SpouseLinesSnoc(n: Naming, xs: seq<XRef>, x: XRef)
    ensures SpouseLines(n, xs + [x]) == SpouseLines(n, xs) + [Line(1, "", "FAMS", Pointer(FamilyName(n, x)))]
  {
    assert (xs + [x])[..|xs|] == xs;
  }

  lemma ChildLinesSnoc(n: Naming, xs: seq<XRef>, x: XRef, asChild: map<XRef, string>, notes: map<XRef, seq<Line>>)
    requires x in asChild && forall y :: y in xs ==> y in asChild
    ensures ChildLines(n, xs + [x], asChild, notes) ==
            ChildLines(n, xs, asChild, notes) + ChildLinkLines(FamilyName(n, x), asChild[x], NotesOf(notes, x))
  {
    assert (xs + [x])[..|xs|] == xs;
  }

  lemma ChildLinesGrow(n: Naming, start: seq<Line>, xs: seq<XRef>, x: XRef, asChild: map<XRef, string>, notes: map<XRef, seq<Line>>)
    requires x in asChild && forall y :: y in xs ==> y in asChild
    ensures start + ChildLines(n, xs, asChild, notes) + ChildLinkLines(FamilyName(n, x), asChild[x], NotesOf(notes, x)) ==
            start + ChildLines(n, xs + [x], asChild, notes)
  {
    ChildLinesSnoc(n, xs, x, asChild, notes);
    Regroup(start, ChildLines(n, xs, asChild, notes), ChildLinkLines(FamilyName(n, x), asChild[x], NotesOf(notes, x)));
  }

  method WriteSpouseLinks(w: Writer, n: Naming, links: PersonLinks)
    requires Ready(w) && GoodNaming(n)
    modifies w
    ensures Ready(w) && w.lines == old(w.lines) + SpouseLines(n, InNameOrder(n, links.asPartner))
  {
    NamesAreOrdered(n);
    var xs := SortedKeys(NameOrder(n), links.asPartner);
    for i := 0 to |xs|
      invariant Ready(w) && w.lines == old(w.lines) + SpouseLines(n, xs[..i])
    {
      PrefixGrows(xs, i);
      NamesAreGood(n, 0, xs[i]);
      PointerPrintable("FAMS", FamilyName(n, xs[i]));
      Emit(w, Line(1, "", "FAMS", Pointer(FamilyName(n, xs[i]))));
      Regroup(old(w.lines), SpouseLines(n, xs[..i]), [Line(1, "", "FAMS", Pointer(FamilyName(n, xs[i])))]);
      SpouseLinesSnoc(n, xs[..i], xs[i]);
    }
    assert xs[..|xs|] == xs;
  }

  // One more family after those of `ys`.
  method WriteNextChildLink(w: Writer, n: Naming, links: PersonLinks, notes: map<XRef, seq<Line>>, y: XRef,
                            ghost start: seq<Line>, ghost ys: seq<XRef>)
    requires Ready(w) && GoodNaming(n) && forall x :: x in notes ==> LinkDetails(notes[x])
    requires y in links.asChild && forall x :: x in ys ==> x in links.asChild
    requires w.lines == start + ChildLines(n, ys, links.asChild, notes)
    modifies w
    ensures Ready(w) && forall x :: x in ys + [y] ==> x in links.asChild
    ensures w.lines == start + ChildLines(n, ys + [y], links.asChild, notes)
  {
    WriteChildLink(w, n, y, links.asChild[y], NotesOf(notes, y));
    ChildLinesGrow(n, start, ys, y, links.asChild, notes);
  }

  method WriteChildLinks(w: Writer, n: Naming, links: PersonLinks, notes: map<XRef, seq<Line>>)
    requires Ready(w) && GoodNaming(n) && forall x :: x in notes ==> LinkDetails(notes[x])
    modifies w
    ensures Ready(w) && forall x :: x in InNameOrder(n, links.asChild.Keys) ==> x in links.asChild
    ensures w.lines == old(w.lines) + ChildLines(n, InNameOrder(n, links.asChild.Keys), links.asChild, notes)
  {
    ghost var start := w.lines;
    NamesAreOrdered(n);
    OrderIsWhole(n, links.asChild.Keys);
    var ys := SortedKeys(NameOrder(n), links.asChild.Keys);
    for i := 0 to |ys|
      invariant Ready(w) && forall x :: x in ys[..i] ==> x in links.asChild
      invariant w.lines == start + ChildLines(n, ys[..i], links.asChild, notes)
    {
      PrefixGrows(ys, i);
      WriteNextChildLink(w, n, links, notes, ys[i], start, ys[..i]);
    }
    assert ys[..|ys|] == ys;
  }

  // The record of a person, its links in order.
  ghost function PersonRecord(n: Naming, p: Uuid, d: PersonDetails, links: PersonLinks): seq<Line>
    requires GoodNaming(n)
  {
    OrderIsWhole(n, links.asChild.Keys);
    IndividualLines(n, p, d, InNameOrder(n, links.asPartner), InNameOrder(n, links.asChild.Keys), links.asChild)
  }

  method WriteIndividual(w: Writer, n: Naming, p: Uuid, d: PersonDetails, links: PersonLinks)
    requires Ready(w) && GoodNaming(n) && GoodDetails(d)
    modifies w
    ensures Ready(w) && w.lines == old(w.lines) + PersonRecord(n, p, d, links)
  {
    NamesAreGood(n, p, RelationXRef(0, "", 0, []));
    RecordPrintable(PersonName(n, p), "INDI");
    OrderIsWhole(n, links.asChild.Keys);
    Emit(w, Line(0, PersonName(n, p), "INDI", Text("")));
    EmitAll(w, d.before);
    WriteSpouseLinks(w, n, links);
    WriteChildLinks(w, n, links, d.notes);
    EmitAll(w, d.after);
    ghost var head := [Line(0, PersonName(n, p), "INDI", Text(""))];
    ghost var spouses := SpouseLines(n, InNameOrder(n, links.asPartner));
    ghost var children := ChildLines(n, InNameOrder(n, links.asChild.Keys), links.asChild, d.notes);
    Regroup(old(w.lines), head, d.before);
    Regroup(old(w.lines), head + d.before, spouses);
    Regroup(old(w.lines), head + d.before + spouses, children);
    Regroup(old(w.lines), head + d.before + spouses + children, d.after);
  }

  // A reader learns exactly the person's links from it.
  lemma PersonRecordReads(s: Reading, n: Naming, p: Uuid, d: PersonDetails, links: PersonLinks)
    requires GoodNaming(n) && GoodDetails(d)
    ensures IndividualAdded(n, p, links, s.facts, ReadFrom(s, PersonRecord(n, p, d, links)).facts)
  {
    OrderIsWhole(n, links.asPartner);
    OrderIsWhole(n, links.asChild.Keys);
    IndividualReads(s, n, p, d, InNameOrder(n, links.asPartner), InNameOrder(n, links.asChild.Keys), links);
  }

  lemma RolesGood(f: Family, p: Uuid)
    requires RolesPrintable(f)
    ensures forall l :: l in RoleLines(f, p) ==> Printable(l)
  {
    if p in f.roles {
      PhrasePrintable(2, f.roles[p]);
    }
  }

  method WritePartners(w: Writer, n: Naming, f: Family, persons: Persons)
    requires Ready(w) && GoodNaming(n) && RolesPrintable(f)
    modifies w
    ensures Ready(w) && w.lines == old(w.lines) + PartnerLines(n, f, persons, |f.partners|)
  {
    for k := 0 to |f.partners|
      invariant Ready(w) && w.lines == old(w.lines) + PartnerLines(n, f, persons, k)
    {
      NamesAreGood(n, f.partners[k], f.xref);
      PointerPrintable(PartnerTag(f, persons, k), PersonName(n, f.partners[k]));
      RolesGood(f, f.partners[k]);
      Emit(w, Line(1, "", PartnerTag(f, persons, k), Pointer(PersonName(n, f.partners[k]))));
      EmitAll(w, RoleLines(f, f.partners[k]));
      ghost var line := Line(1, "", PartnerTag(f, persons, k), Pointer(PersonName(n, f.partners[k])));
      Regroup(old(w.lines), PartnerLines(n, f, persons, k), [line]);
      Regroup(old(w.lines), PartnerLines(n, f, persons, k) + [line], RoleLines(f, f.partners[k]));
    }
  }

  lemma ChilLinesGrow(n: Naming, start: seq<Line>, children: seq<Uuid>, k: nat)
    requires k < |children|
    ensures start + ChilLines(n, children[..k]) + [Line(1, "", "CHIL", Pointer(PersonName(n, children[k])))] ==
            start + ChilLines(n, children[..k + 1])
  {
    assert children[..k + 1][..k] == children[..k];
    Regroup(start, ChilLines(n, children[..k]), [Line(1, "", "CHIL", Pointer(PersonName(n, children[k])))]);
  }

  method WriteChildren(w: Writer, n: Naming, f: Family, children: seq<Uuid>)
    requires Ready(w) && GoodNaming(n)
    modifies w
    ensures Ready(w) && w.lines == old(w.lines) + ChilLines(n, children)
  {
    for k := 0 to |children|
      invariant Ready(w) && w.lines == old(w.lines) + ChilLines(n, children[..k])
    {
      NamesAreGood(n, children[k], f.xref);
      PointerPrintable("CHIL", PersonName(n, children[k]));
      Emit(w, Line(1, "", "CHIL", Pointer(PersonName(n, children[k]))));
      ChilLinesGrow(n, old(w.lines), children, k);
    }
    assert children[..|children|] == children;
  }

  ghost function ChildrenInOrder(f: Family): seq<Uuid> {
    SortedOf(set c | c in f.children)
  }

  ghost function FamilyRecord(n: Naming, f: Family, persons: Persons, details: seq<Line>): seq<Line> {
    FamilyLines(n, f, persons, ChildrenInOrder(f), details)
  }

  lemma ChildrenAreInOrder(f: Family, children: seq<Uuid>)
    requires SameMembers(children, f.children) && SortedBy(map[], children)
    ensures children == ChildrenInOrder(f)
  {
    SortedIsWhole(set c | c in f.children);
    SortedUnique(map[], children, ChildrenInOrder(f));
  }

  method WriteFamily(w: Writer, n: Naming, f: Family, persons: Persons, details: seq<Line>)
    requires Ready(w) && GoodNaming(n) && Details(details) && Distinct(f.children) && RolesPrintable(f)
    modifies w
    ensures Ready(w) && w.lines == old(w.lines) + FamilyRecord(n, f, persons, details)
  {
    NamesAreGood(n, 0, f.xref);
    RecordPrintable(FamilyName(n, f.xref), "FAM");
    Emit(w, Line(0, FamilyName(n, f.xref), "FAM", Text("")));
    WritePartners(w, n, f, persons);
    var children := Sort(map[], f.children);
    ChildrenAreInOrder(f, children);
    WriteChildren(w, n, f, children);
    EmitAll(w, details);
    ghost var head := [Line(0, FamilyName(n, f.xref), "FAM", Text(""))];
    ghost var partners := PartnerLines(n, f, persons, |f.partners|);
    Regroup(old(w.lines), head, partners);
    Regroup(old(w.lines), head + partners, ChilLines(n, children));
    Regroup(old(w.lines), head + partners + ChilLines(n, children), details);
  }

  // ---- The whole file ----

  // Header, trailer and multimedia records: no families, no persons.
  ghost predicate OtherRecords(lines: seq<Line>) {
    && (lines != [] ==> lines[0].level == 0)
    && forall l :: l in lines ==> Printable(l) && (l.level == 0 ==> l.tag != "FAM" && l.tag != "INDI")
  }

  lemma {:induction false} OtherRecordsRead(s: Reading, lines: seq<Line>)
    requires OtherRecords(lines)
    ensures var after := ReadFrom(s, lines);
      && after.facts == s.facts
      && (lines != [] ==> after.kind != "FAM" && after.kind != "INDI" && after.famc == None)
  {
    if lines != [] {
      var before := lines[..|lines| - 1];
      assert lines[|lines| - 1] in lines;
      assert forall l :: l in before ==> l in lines;
      OtherRecordsRead(s, before);
    }
  }

  // What the snapshot says besides families: header and multimedia records, and the other lines of each record.
  datatype Extras = Extras(header: seq<Line>, persons: map<Uuid, PersonDetails>, families: map<XRef, seq<Line>>, trailer: seq<Line>)

  ghost predicate GoodExtras(e: Extras) {
    && OtherRecords(e.header) && OtherRecords(e.trailer)
    && (forall p :: p in e.persons ==> GoodDetails(e.persons[p]))
    && (forall x :: x in e.families ==> Details(e.families[x]))
  }

  ghost predicate ActivePerson(rows: seq<Person>, p: Uuid) {
    p != 0 && exists r :: r in rows && r.id == p && !r.deleted
  }

  lemma PersonStep(rows: seq<Person>, i: nat)
    requires i < |rows|
    ensures forall p :: ActivePerson(rows[..i + 1], p) <==>
      ActivePerson(rows[..i], p) || (p != 0 && rows[i].id == p && !rows[i].deleted)
  {
    var before, after := rows[..i], rows[..i + 1];
    assert after == before + [rows[i]];
    assert rows[i] in after;
    forall p ensures ActivePerson(after, p) <==> ActivePerson(before, p) || (p != 0 && rows[i].id == p && !rows[i].deleted) {
      if ActivePerson(before, p) {
        var r :| r in before && r.id == p && !r.deleted;
        assert r in after;
      }
    }
  }

  ghost function PersonsOf(rows: seq<Person>): Persons {
    if rows == [] then map[] else
      var r := rows[|rows| - 1];
      if r.id != 0 && !r.deleted then PersonsOf(rows[..|rows| - 1])[r.id := r] else PersonsOf(rows[..|rows| - 1])
  }

  // Persons with an ID that are not deleted; the last row of an ID wins.
  method ActivePersons(rows: seq<Person>) returns (persons: Persons)
    ensures forall p :: p in persons <==> ActivePerson(rows, p)
    ensures forall p :: p in persons ==> persons[p] in rows && persons[p].id == p && !persons[p].deleted
    ensures persons == PersonsOf(rows)
  {
    persons := map[];
    for i := 0 to |rows|
      invariant forall p :: p in persons <==> ActivePerson(rows[..i], p)
      invariant forall p :: p in persons ==> persons[p] in rows && persons[p].id == p && !persons[p].deleted
      invariant persons == PersonsOf(rows[..i])
    {
      var r := rows[i];
      assert rows[..i + 1][..i] == rows[..i];
      PersonStep(rows, i);
      if r.id != 0 && !r.deleted {
        persons := persons[r.id := r];
      }
    }
    assert rows[..|rows|] == rows;
  }

  function DetailsAt(details: map<Uuid, PersonDetails>, p: Uuid): PersonDetails {
    if p in details then details[p] else PersonDetails([], map[], [])
  }

  function LinksAt(links: Links, p: Uuid): PersonLinks {
    if p in links then links[p] else PersonLinks({}, map[])
  }

  ghost function PersonRecords(n: Naming, ids: seq<Uuid>, links: Links, details: map<Uuid, PersonDetails>): seq<Line>
    requires GoodNaming(n)
  {
    if ids == [] then [] else
      var p := ids[|ids| - 1];
      PersonRecords(n, ids[..|ids| - 1], links, details) + PersonRecord(n, p, DetailsAt(details, p), LinksAt(links, p))
  }

  lemma NextPersonRecord(start: seq<Line>, n: Naming, ids: seq<Uuid>, i: nat, links: Links, details: map<Uuid, PersonDetails>)
    requires GoodNaming(n) && i < |ids|
    ensures start + PersonRecords(n, ids[..i], links, details) +
              PersonRecord(n, ids[i], DetailsAt(details, ids[i]), LinksAt(links, ids[i])) ==
            start + PersonRecords(n, ids[..i + 1], links, details)
  {
    assert ids[..i + 1][..i] == ids[..i];
    Regroup(start, PersonRecords(n, ids[..i], links, details),
            PersonRecord(n, ids[i], DetailsAt(details, ids[i]), LinksAt(links, ids[i])));
  }

  method WritePersons(w: Writer, n: Naming, persons: Persons, links: Links, details: map<Uuid, PersonDetails>)
    requires Ready(w) && GoodNaming(n) && forall p :: p in details ==> GoodDetails(details[p])
    modifies w
    ensures Ready(w) && w.lines == old(w.lines) + PersonRecords(n, SortedOf(persons.Keys), links, details)
  {
    var ids := SortedIds(persons.Keys);
    for i := 0 to |ids|
      invariant Ready(w) && w.lines == old(w.lines) + PersonRecords(n, ids[..i], links, details)
    {
      WriteIndividual(w, n, ids[i], DetailsAt(details, ids[i]), LinksAt(links, ids[i]));
      NextPersonRecord(old(w.lines), n, ids, i, links, details);
    }
    assert ids[..|ids|] == ids;
  }

  lemma NextPersonRead(written: seq<Line>, n: Naming, p: Uuid, d: PersonDetails, links: Links, done: set<Uuid>, after: seq<Line>)
    requires GoodNaming(n) && GoodDetails(d) && p in links && p !in done && PersonsRead(n, links, done, FactsOf(written))
    requires after == written + PersonRecord(n, p, d, links[p])
    ensures PersonsRead(n, links, done + {p}, FactsOf(after))
  {
    ReadAppend(START, written, PersonRecord(n, p, d, links[p]));
    PersonRecordReads(ReadFrom(START, written), n, p, d, links[p]);
    PersonRead(n, links, done, p, FactsOf(written), FactsOf(after));
  }

  ghost function IdSet(ids: seq<Uuid>): set<Uuid> {
    set p | p in ids
  }

  lemma NobodyRead(start: seq<Line>, n: Naming, links: Links)
    requires FactsOf(start) == START.facts
    ensures PersonsRead(n, links, {}, FactsOf(start))
  {
  }

  // What a reader of these records learns.
  lemma {:induction false} PersonRecordsRead(start: seq<Line>, n: Naming, ids: seq<Uuid>, links: Links,
                                             details: map<Uuid, PersonDetails>)
    requires GoodNaming(n) && Distinct(ids) && (forall p :: p in ids ==> p in links)
    requires (forall p :: p in details ==> GoodDetails(details[p])) && FactsOf(start) == START.facts
    ensures PersonsRead(n, links, IdSet(ids), FactsOf(start + PersonRecords(n, ids, links, details)))
  {
    if ids == [] {
      assert start + [] == start && IdSet(ids) == {};
      NobodyRead(start, n, links);
    } else {
      var before, p := ids[..|ids| - 1], ids[|ids| - 1];
      assert ids == before + [p] && p in ids && IdSet(before) + {p} == IdSet(ids);
      PersonRecordsRead(start, n, before, links, details);
      NextPersonRecord(start, n, ids, |ids| - 1, links, details);
      assert ids[..|ids|] == ids;
      NextPersonRead(start + PersonRecords(n, before, links, details), n, p, DetailsAt(details, p), links, IdSet(before),
                     start + PersonRecords(n, ids, links, details));
    }
  }

  // ---- Families in order ----

  function FamilyOrder(n: Naming): (Family, Family) -> bool {
    (f: Family, g: Family) => Less(FamilyName(n, f.xref), FamilyName(n, g.xref))
  }

  lemma FamiliesAreOrdered(n: Naming)
    ensures StrictOrder(FamilyOrder(n))
  {
    StringsAreOrdered();
  }

  ghost function XRefsOf(families: seq<Family>): set<XRef> {
    set f | f in families :: f.xref
  }

  ghost function FamilyNamed(families: seq<Family>, x: XRef): Family
    requires x in XRefsOf(families)
  {
    var f :| f in families && f.xref == x;
    f
  }

  ghost function FamiliesInOrder(n: Naming, families: seq<Family>): seq<Family>
    requires GoodNaming(n)
  {
    OrderIsWhole(n, XRefsOf(families));
    var xs := InNameOrder(n, XRefsOf(families));
    seq(|xs|, i requires 0 <= i < |xs| => FamilyNamed(families, xs[i]))
  }

  lemma SameXRef(families: seq<Family>, f: Family, g: Family)
    requires XRefsDistinct(families) && f in families && g in families && f.xref == g.xref
    ensures f == g
  {
    var i :| 0 <= i < |families| && families[i] == f;
    var j :| 0 <= j < |families| && families[j] == g;
  }

  lemma SortedXRefsAre(n: Naming, families: seq<Family>, sorted: seq<Family>, xs: seq<XRef>)
    requires GoodNaming(n) && Ascending(FamilyOrder(n), sorted) && forall f :: f in sorted <==> f in families
    requires |xs| == |sorted| && forall i :: 0 <= i < |sorted| ==> xs[i] == sorted[i].xref
    ensures xs == InNameOrder(n, XRefsOf(families))
  {
    NamesAreOrdered(n);
    forall i, j | 0 <= i < j < |xs| ensures NameOrder(n)(xs[i], xs[j]) {
      assert FamilyOrder(n)(sorted[i], sorted[j]);
    }
    forall x ensures x in xs <==> x in XRefsOf(families) {
      if x in xs {
        var i :| 0 <= i < |xs| && xs[i] == x;
        assert sorted[i] in families;
      }
      if x in XRefsOf(families) {
        var f :| f in families && f.xref == x;
        var i :| 0 <= i < |sorted| && sorted[i] == f;
        assert xs[i] == x;
      }
    }
    ArrangedIs(NameOrder(n), XRefsOf(families), xs);
  }

  lemma SortedFamiliesAre(n: Naming, families: seq<Family>, sorted: seq<Family>)
    requires GoodNaming(n) && XRefsDistinct(families)
    requires Ascending(FamilyOrder(n), sorted) && forall f :: f in sorted <==> f in families
    ensures sorted == FamiliesInOrder(n, families)
  {
    var xs := seq(|sorted|, i requires 0 <= i < |sorted| => sorted[i].xref);
    SortedXRefsAre(n, families, sorted, xs);
    OrderIsWhole(n, XRefsOf(families));
    forall i | 0 <= i < |sorted| ensures sorted[i] == FamilyNamed(families, xs[i]) {
      assert sorted[i] in families && xs[i] in XRefsOf(families);
      SameXRef(families, sorted[i], FamilyNamed(families, xs[i]));
    }
  }

  lemma SameListing(families: seq<Family>, sorted: seq<Family>, x: XRef, p: Uuid)
    requires forall f :: f in sorted <==> f in families
    ensures ListsPartner(sorted, x, p) <==> ListsPartner(families, x, p)
  {
    if i :| 0 <= i < |families| && families[i].xref == x && p in families[i].partners {
      assert families[i] in sorted;
    }
    if i :| 0 <= i < |sorted| && sorted[i].xref == x && p in sorted[i].partners {
      assert sorted[i] in families;
    }
  }

  lemma SameChildListing(families: seq<Family>, sorted: seq<Family>, x: XRef, c: Uuid, t: string)
    requires forall f :: f in sorted <==> f in families
    ensures ListsChild(sorted, x, c, t) <==> ListsChild(families, x, c, t)
  {
    if i :| 0 <= i < |families| && families[i].xref == x && c in families[i].childLinks && families[i].childLinks[c] == t {
      assert families[i] in sorted;
    }
    if i :| 0 <= i < |sorted| && sorted[i].xref == x && c in sorted[i].childLinks && sorted[i].childLinks[c] == t {
      assert sorted[i] in families;
    }
  }

  lemma SortedKeepsInv(n: Naming, persons: Persons, families: seq<Family>, links: Links, sorted: seq<Family>)
    requires Inv(persons, families, links) && StrictOrder(FamilyOrder(n))
    requires Ascending(FamilyOrder(n), sorted) && forall f :: f in sorted <==> f in families
    ensures Inv(persons, sorted, links)
  {
    forall i, j | 0 <= i < j < |sorted| ensures sorted[i].xref != sorted[j].xref {
      assert FamilyOrder(n)(sorted[i], sorted[j]) && !FamilyOrder(n)(sorted[j], sorted[j]);
    }
    forall x, p ensures ListsPartner(sorted, x, p) <==> ListsPartner(families, x, p) {
      SameListing(families, sorted, x, p);
    }
    forall x, c, t ensures ListsChild(sorted, x, c, t) <==> ListsChild(families, x, c, t) {
      SameChildListing(families, sorted, x, c, t);
    }
  }

  lemma SameStatements(families: seq<Family>, sorted: seq<Family>)
    requires forall f :: f in sorted <==> f in families
    ensures forall u, p :: UnionLists(sorted, u, p) <==> UnionLists(families, u, p)
    ensures forall p: Uuid, c: Uuid, t: string :: Tells(sorted, p, c, t) <==> Tells(families, p, c, t)
  {
    forall u, p ensures UnionLists(sorted, u, p) <==> UnionLists(families, u, p) {
      if i :| 0 <= i < |families| && families[i].xref.UnionXRef? && families[i].xref.unionId == u && p in families[i].partners {
        assert families[i] in sorted;
      }
      if i :| 0 <= i < |sorted| && sorted[i].xref.UnionXRef? && sorted[i].xref.unionId == u && p in sorted[i].partners {
        assert sorted[i] in families;
      }
    }
    forall p: Uuid, c: Uuid, t: string ensures Tells(sorted, p, c, t) <==> Tells(families, p, c, t) {
      if i :| 0 <= i < |families| && p in families[i].partners && c in families[i].childLinks && families[i].childLinks[c] == t {
        assert families[i] in sorted;
      }
      if i :| 0 <= i < |sorted| && p in sorted[i].partners && c in sorted[i].childLinks && sorted[i].childLinks[c] == t {
        assert sorted[i] in families;
      }
    }
  }

  // The families by name; they say the same in this order.
  method SortFamilies(n: Naming, ghost persons: Persons, families: seq<Family>, ghost links: Links) returns (sorted: seq<Family>)
    requires GoodNaming(n) && Inv(persons, families, links)
    ensures sorted == FamiliesInOrder(n, families) && Inv(persons, sorted, links)
    ensures forall u, p :: UnionLists(sorted, u, p) <==> UnionLists(families, u, p)
    ensures forall p: Uuid, c: Uuid, t: string :: Tells(sorted, p, c, t) <==> Tells(families, p, c, t)
  {
    FamiliesAreOrdered(n);
    forall i, j | 0 <= i < j < |families|
      ensures FamilyOrder(n)(families[i], families[j]) || FamilyOrder(n)(families[j], families[i])
    {
      FamilyNamesDiffer(n, families[i].xref, families[j].xref);
      LessIsTotal(FamilyName(n, families[i].xref), FamilyName(n, families[j].xref));
    }
    sorted := SortBy(FamilyOrder(n), families);
    SortedFamiliesAre(n, families, sorted);
    SortedKeepsInv(n, persons, families, links, sorted);
    SameStatements(families, sorted);
  }

  function FamilyDetailsAt(details: map<XRef, seq<Line>>, x: XRef): seq<Line> {
    if x in details then details[x] else []
  }

  ghost function FamilyRecords(n: Naming, persons: Persons, families: seq<Family>, details: map<XRef, seq<Line>>): seq<Line> {
    if families == [] then [] else
      var f := families[|families| - 1];
      FamilyRecords(n, persons, families[..|families| - 1], details) + FamilyRecord(n, f, persons, FamilyDetailsAt(details, f.xref))
  }

  lemma NextFamilyRecord(start: seq<Line>, n: Naming, persons: Persons, families: seq<Family>, i: nat, details: map<XRef, seq<Line>>)
    requires i < |families|
    ensures start + FamilyRecords(n, persons, families[..i], details) +
              FamilyRecord(n, families[i], persons, FamilyDetailsAt(details, families[i].xref)) ==
            start + FamilyRecords(n, persons, families[..i + 1], details)
  {
    assert families[..i + 1][..i] == families[..i];
    Regroup(start, FamilyRecords(n, persons, families[..i], details),
            FamilyRecord(n, families[i], persons, FamilyDetailsAt(details, families[i].xref)));
  }

  method WriteFamilies(w: Writer, n: Naming, persons: Persons, families: seq<Family>, details: map<XRef, seq<Line>>)
    requires Ready(w) && GoodNaming(n) && forall f :: f in families ==> WellFormed(persons, f)
    requires forall x :: x in details ==> Details(details[x])
    modifies w
    ensures Ready(w) && w.lines == old(w.lines) + FamilyRecords(n, persons, families, details)
  {
    for i := 0 to |families|
      invariant Ready(w) && w.lines == old(w.lines) + FamilyRecords(n, persons, families[..i], details)
    {
      assert WellFormed(persons, families[i]);
      WriteFamily(w, n, families[i], persons, FamilyDetailsAt(details, families[i].xref));
      NextFamilyRecord(old(w.lines), n, persons, families, i, details);
    }
    assert families[..|families|] == families;
  }

  lemma NextFamilyRead(start: Facts, written: seq<Line>, n: Naming, persons: Persons, families: seq<Family>, i: nat,
                       extra: seq<Line>, after: seq<Line>)
    requires i < |families| && Details(extra) && FamiliesRead(n, families, IndicesBelow(i), start, FactsOf(written))
    requires after == written + FamilyRecord(n, families[i], persons, extra)
    ensures FamiliesRead(n, families, IndicesBelow(i + 1), start, FactsOf(after))
  {
    var f := families[i];
    SortedIsWhole(set c | c in f.children);
    ReadAppend(START, written, FamilyRecord(n, f, persons, extra));
    FamilyReads(ReadFrom(START, written), n, f, persons, ChildrenInOrder(f), extra);
    FamilyRead(n, families, IndicesBelow(i), i, start, FactsOf(written), FactsOf(after), ChildrenInOrder(f));
  }

  lemma NoFamilyRead(start: Facts, n: Naming, families: seq<Family>)
    requires start.partners == {} && start.children == {}
    ensures FamiliesRead(n, families, IndicesBelow(0), start, start)
  {
  }

  // What a reader of these records learns.
  lemma {:induction false} FamilyRecordsRead(start: seq<Line>, n: Naming, persons: Persons, families: seq<Family>, k: nat,
                                             details: map<XRef, seq<Line>>)
    requires k <= |families| && forall x :: x in details ==> Details(details[x])
    requires FactsOf(start).partners == {} && FactsOf(start).children == {}
    ensures FamiliesRead(n, families, IndicesBelow(k), FactsOf(start),
                         FactsOf(start + FamilyRecords(n, persons, families[..k], details)))
  {
    if k == 0 {
      assert start + [] == start;
      NoFamilyRead(FactsOf(start), n, families);
    } else {
      FamilyRecordsRead(start, n, persons, families, k - 1, details);
      NextFamilyRecord(start, n, persons, families, k - 1, details);
      NextFamilyRead(FactsOf(start), start + FamilyRecords(n, persons, families[..k - 1], details), n, persons, families, k - 1,
                     FamilyDetailsAt(details, families[k - 1].xref), start + FamilyRecords(n, persons, families[..k], details));
    }
  }

  // ---- Links ----

  ghost function TypeAt(families: seq<Family>, x: XRef, c: Uuid): string
    requires exists f :: f in families && f.xref == x && c in f.childLinks
  {
    var f :| f in families && f.xref == x && c in f.childLinks;
    f.childLinks[c]
  }

  ghost function ChildLinksOf(families: seq<Family>, c: Uuid): map<XRef, string> {
    map x | x in set f | f in families && c in f.childLinks :: f.xref :: TypeAt(families, x, c)
  }

  ghost function LinksOf(persons: Persons, families: seq<Family>): Links {
    map p | p in persons :: PersonLinks(set f | f in families && p in f.partners :: f.xref, ChildLinksOf(families, p))
  }

  lemma ChildLinkIs(families: seq<Family>, x: XRef, c: Uuid)
    requires XRefsDistinct(families) && x in ChildLinksOf(families, c)
    ensures ListsChild(families, x, c, ChildLinksOf(families, c)[x])
  {
    var f :| f in families && f.xref == x && c in f.childLinks && f.childLinks[c] == TypeAt(families, x, c);
    var i :| 0 <= i < |families| && families[i] == f;
  }

  lemma ChildLinksAre(families: seq<Family>, links: Links, c: Uuid)
    requires XRefsDistinct(families) && Reciprocal(families, links) && c in links
    ensures links[c].asChild == ChildLinksOf(families, c)
  {
    forall x ensures x in links[c].asChild <==> x in ChildLinksOf(families, c) {
      if x in links[c].asChild {
        assert ListsChild(families, x, c, links[c].asChild[x]);
        var i :| 0 <= i < |families| && families[i].xref == x && c in families[i].childLinks;
        assert families[i] in families;
      }
      if x in ChildLinksOf(families, c) {
        ChildLinkIs(families, x, c);
        assert ListsChild(families, x, c, ChildLinksOf(families, c)[x]);
      }
    }
    forall x | x in links[c].asChild ensures links[c].asChild[x] == ChildLinksOf(families, c)[x] {
      ChildLinkIs(families, x, c);
      assert ListsChild(families, x, c, ChildLinksOf(families, c)[x]);
    }
  }

  // The families determine the links.
  lemma LinksAre(persons: Persons, families: seq<Family>, links: Links)
    requires Inv(persons, families, links)
    ensures links == LinksOf(persons, families)
  {
    forall p | p in links ensures links[p] == LinksOf(persons, families)[p] {
      ChildLinksAre(families, links, p);
      forall x ensures x in links[p].asPartner <==> x in LinksOf(persons, families)[p].asPartner {
        if x in links[p].asPartner {
          var i :| 0 <= i < |families| && families[i].xref == x && p in families[i].partners;
          assert families[i] in families;
        }
        if x in LinksOf(persons, families)[p].asPartner {
          var f :| f in families && p in f.partners && f.xref == x;
          var i :| 0 <= i < |families| && families[i] == f;
          assert ListsPartner(families, x, p);
        }
      }
    }
  }
}
